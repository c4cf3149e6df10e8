# ClawNetwork: a verified model

This project models the parts of ClawNetwork that have to be right for the chain and its two funds to be trusted, and proves what they promise. It is self-contained Dafny; `dafny verify dfyconfig.toml` checks all of it.

Code that updates fields step by step is written as classes with methods, each proved against a specification function of the old state; the theorems are about those functions and about runs of them. The files, bottom up:

- **Common, Bytes, Text** — options, sums over maps, little-endian numbers, hexadecimal and decimal text, UTF-8 and UTF-16.
- **ConsensusTypes, Ranking, Election, Voting, Slashing, ValidatorSet** — the consensus crate.
- **Rewards, Staking, TreasuryState** — rewards and staking transactions: the treasury as a value, its laws, and the functions that update it.
- **NodeTypes, Checkins, NodeSpec, Node** — the node. `NodeSpec` says what producing and applying a block do, separately, as the code has them; `Node.ChainInner` is the object whose methods are proved equal to it.
- **Transactions, Mempool, Batches** — what one transaction does, refused or not; which ones a batch takes, and what its refused ones leave behind.
- **Bookkeeping, Agreement, NodeRuns, Acceptance, CheckinSafety** — supply through a block, agreement of producer and verifier, networks in lockstep, which produced blocks are accepted, check-ins.
- **Verdicts, Production, RewardEffects, Nonces** — what accepting, refusing and producing a block mean, in terms of the block and the node alone; who is paid what; no transaction twice.
- **Sync, Chain** — the sync dialogue as two functions, its termination and its goal, and the handlers that implement it.
- **ArenaPool, ArenaContract, ArenaSafety, ArenaEffects** — the escrow contract: operations, methods, runs, and rights and effects player by player.
- **VaultSpec, VaultStore, Vault, VaultSafety, VaultEffects** — the reward vault: typed tables, their encoding in a byte store, the entry points over that store, runs, and rights and effects account by account.
- **Merkle** — the state-root tree.
- **Borsh, Metadata, Amount** — the wire format and decimal amounts.

## What is assumed

Foreign code enters the node model as the fields of `NodeTypes.Kernel`, and what is assumed of it is written as predicates of the kernel, which the theorems name in their `requires`:

- `IndexLawful`: what a handler does to the state, and whether it succeeds, does not depend on the transaction's index. The index the producer passes also counts failing transactions (chain.rs:636), the verifier's does not (chain.rs:1042); handlers put it into events only.
- `TokensLawful`: a handler outside staking neither creates nor destroys tokens, succeeding or failing, leaves mining rewards alone, and leaves no delegation of a validator without stake (the only other one that writes delegations demands a stake, crates/state/src/handlers.rs:1060-1066).
- `SignaturesLawful`: a signature made with a key verifies under it.
- `CheckinsLawful`: it does not change a registered miner's last check-in.
- `NoncesLawful`: it does not change nonces; contract deployment reads one (crates/state/src/handlers.rs:456), nothing else touches them.

All of them also assume that handlers are functions of the state. Contract execution is cut off by a wall-clock timeout and refused above a process-wide number of running contracts (crates/state/src/handlers.rs:128-183), so two nodes can disagree on a contract call for no reason in the chain's state; nothing here covers that.

What is not assumed: payload size, nonce, gas and its refund, and the three staking transactions are modelled (`NodeTypes.Kernel.ApplyTx`, `Staking`), and what the laws say is proved of them. Nor is it assumed that a failing transaction leaves no trace; staking ones do (below), and theorems that need it require it of the batch at hand: `LeavesNoTrace`, which can be evaluated before the block is built. Traces outside staking remain a condition on the batch (`OthersFailCleanly`): a failing contract call that carries value leaves a zero balance entry for a contract that had none, and one to a contract without code does not return the value at all (crates/state/src/handlers.rs:632-648 and the refunds below). `Batches.LawsAreConsistent` gives a kernel that meets all the laws.

Rewards are not assumed either: a world's tokens and mining accounts are a treasury (`NodeTypes.Books`), block production runs the functions of `Rewards` on it, and that these conserve the supply, settle mining rewards and leave check-ins alone is proved.

blake3, state roots, serialization, the pseudo-random seed and Ed25519 are uninterpreted functions. Two theorems rely on what a root tells. Merkle binding assumes collision freedom, as `Hasher.CollisionFree`. Refusal of a produced block assumes, as `Acceptance.RootTells`, that the producer's world and the verifier's do not share a root while they hold different tokens; besides a hash collision, two equal unbonding entries at the end of an odd list of leaves could break it (`DuplicatedLastLeafSharesRoot`).

## What turned out different from its description

- A block is not always acceptable to the nodes that agree with its producer. `produce_block` drops failing transactions but keeps what they did to its own state, and two staking transactions do something before they fail. A claim with nothing mature empties the whole unbonding queue (crates/state/src/handlers.rs:1219-1230). A withdrawal that meets the limit of 100 entries has already lowered the stake (1166-1193). `BackedFailsCleanlyIff` says when exactly a failing one leaves no trace; `AcceptedIff` says which blocks are accepted: timely, signed, and without such a loss. `IdleClaimIsRefused`: one claim with nothing mature is enough, whenever anything is unbonding. The producer only logs the loss (chain.rs:812-827).
- A third such branch is dead. A deposit against somebody else's delegation writes the validator's stake back (1006-1022), as a zero if it had none (`DepositFailsCleanlyIff`). It never has none: every delegation is of a validator with stake, at genesis because there are no delegations and ever after (`Staking.Backed`, part of `Booked`, which every step of a node keeps). Slashing would break this, but the node reports no equivocation.
- The per-player check of `lock_entries` runs before any lock, so a list that names a player twice passes and can leave a lock unbacked. `RepeatedPlayerBreaksCover` exhibits it; `LockStaysCoveredIff` is the exact condition. While a game's seats are not all covered, a settlement that adds up leaves the range of its arithmetic (`FaultsIff`); refunds still work (`EscapeHatch`).
- A settlement pays a pending mining reward only if it was booked in the settled epoch, and clears it either way. `BoundarySupply` gives the exact loss; `Booked` is the invariant under which it is zero. Producing, applying, offering and voting keep it, and so does restoring from a peer that has it (`RestoredStaysSound`).
- Against a peer with a snapshot that decodes the sync dialogue always ends. Otherwise it can go on forever. `StalledEndsIff`: when blocks do not help, because the node is more than 1000 blocks behind or the next block is pruned, of another chain or refused for its state root at every try, it ends exactly when the peer has a snapshot that settles it. `StatusEndsIff`: a node that agrees with the chain's past ends it exactly when it is at most 1000 blocks behind a peer that still holds the next block, or that peer's snapshot settles it.
- A node restored from a snapshot replays an epoch rotation, but not the release of jail terms. `RestoredWorldIff`: but for receipts and check-ins of the running epoch, which serialization skips, its world state equals the peer's exactly when no jail term ends at that boundary.
- With seven or more validators gossip refuses a block that carries only its producer's signature (`LargeNetworkGossipRefuses`), which is how `produce_block` hands it out.
- The daily cap holds if cleanups reach only past days (`CapHolds`). `CleanupReopensCapIff`: after a cleanup someone can be paid beyond the cap exactly when it lists the address and reaches past the current day; `CleanupOfTodayBreaksCap` pays a cap out twice.
- JavaScript sorts map keys by UTF-16 units and Rust by UTF-8 bytes. `SameAsRustIff`: the bytes of a string map agree exactly when no two keys first differ in a surrogate pair against a single unit above the surrogates.
- A validator is offline from 51 missed slots in 100, not from one over half: the percentage is rounded down before it is compared (`OfflineIff`).
- When every staker is jailed or below the minimum, the one with the greatest address stays active, not the one with the most stake (`LastResort`, `LastResortMayBePoorer`).
- Evidence is told apart by a fingerprint that depends on the order of its two blocks; turned round, the same two blocks convict again while stake is left (`TurnedRoundConvictsIff`).
- An empty validator set makes every vote collector final before any vote (`EmptySetFinalizesAnything`).
- The wallet's amount parser accepts more than the command line's: any text of digits and dots (`WalletReadsDigitsAndDots`). `CommandLineAcceptsIff`: plus signs and outer white space aside, the command line takes plain decimals of at most nine places worth less than 2^128, nothing else; `ParsersAgreeIff`: on texts of digits and dots the two agree exactly there.

## Model

| member | source | states |
|---|---|---|
| Agreement.ProducedBlockIsAccepted | claw-node/crates/node/src/chain.rs:576-1309 | a block `produce_block` builds, if its refused transactions leave no trace, is accepted by a node that agrees with the producer if and only if it is timely and carries enough signatures, and then both nodes agree on world, slashing counters, offline set, active set and chain |
| Acceptance.AcceptedIff | claw-node/crates/node/src/chain.rs:576-1309 | exactly which produced blocks an agreeing node accepts: timely, signed, and from a batch whose refused transactions lose no token; given that its failing contract calls leave nothing and that the two roots tell |
| Acceptance.LossIsRefused | claw-node/crates/node/src/chain.rs:1195-1226 | a batch that loses a token, whatever else it holds, makes a block that no agreeing node accepts, given that the two roots tell |
| Acceptance.IdleClaimIsRefused | claw-node/crates/state/src/handlers.rs:1208-1240 | one claim with nothing mature, while anything is unbonding, makes such a block |
| Agreement.SmallOrSyncingNetworkAccepts | claw-node/crates/node/src/chain.rs:962-1003 | below seven validators, or while syncing, the producer's own signature is enough for a timely block that leaves no trace |
| Agreement.LargeNetworkGossipRefuses | claw-node/crates/node/src/chain.rs:980-1002 | from seven validators on, a block with the producer's signature alone is refused by gossip |
| Agreement.ProductionMeetsSupplyCheck | claw-node/crates/node/src/chain.rs:812-827 | what production takes out of circulation is exactly the undistributed part of the fees and the loss of its refused transactions; mining rewards stay booked for the next boundary |
| Verdicts.AcceptsIff | claw-node/crates/node/src/chain.rs:925-1226 | exactly which blocks a node accepts, in terms of the block, its signatures and the node: next in the chain, rightly hashed, in time, small, signed by enough active validators, from an elected proposer, with transactions that all replay, admissible witnesses of different miners, the right root and the right supply |
| Verdicts.HeaderPassesIff | claw-node/crates/node/src/chain.rs:929-1003 | exactly which blocks pass the checks before anything changes; a signature counts only if it verifies and its signer is active |
| Verdicts.CheckinsPassIff | claw-node/crates/node/src/chain.rs:1101-1193 | exactly which lists of witnesses pass: none before check-ins by witness, then those of registered, uncredited and different miners, for the epoch, on a block of the chain, and signed |
| Verdicts.AcceptedChanges | claw-node/crates/node/src/chain.rs:1226-1309 | all that accepting a block makes of a node |
| Verdicts.RefusalMeaning | claw-node/crates/node/src/chain.rs:925-1226 | all that refusing one changes: nothing, then the slot counters, then the cache |
| Verdicts.AcceptedCache | claw-node/crates/node/src/chain.rs:1177-1193 | an accepted block's witnesses are cached from the height where witnesses begin |
| Verdicts.FilingMeaning | claw-node/crates/node/src/chain.rs:1177-1193 | cached witnesses are found under their epoch and miner, and displace no other |
| Verdicts.MissIsRecorded | claw-node/crates/node/src/chain.rs:1006-1033 | the block of a fallback costs the elected primary one slot, and nobody else anything |
| Verdicts.RotationMeaning | claw-node/crates/node/src/chain.rs:1257-1290 | after an epoch's last block: who is still jailed, who is offline, and that the counters start anew |
| Verdicts.RotationElects | claw-node/crates/node/src/chain.rs:1265-1276 | whom it makes active: only validators with enough stake and no running jail term, and none of those is missing but for 21 that rank ahead |
| Verdicts.AcceptedHashBinds | claw-node/crates/node/src/chain.rs:936-943 | two accepted blocks of one hash differ in signatures and events at most, given that the hash tells its inputs apart |
| Verdicts.AcceptedShareSigners | claw-node/crates/node/src/chain.rs:962-1003 | two blocks that gossip accepts under the same seven or more validators carry valid signatures of more than a third of them in common |
| Verdicts.NoForkByGossip | claw-node/crates/node/src/chain.rs:962-1003 | with at most floor((n-1)/3) validators that sign two blocks of one height, gossip accepts one block at a height |
| Verdicts.VoteMeaning | claw-node/crates/node/src/chain.rs:533-573 | exactly which votes count, and that one adds its signature to the tip and nothing else |
| Verdicts.OfferMeaning | claw-node/crates/node/src/chain.rs:428-470 | exactly which offered witnesses enter the cache, and where |
| Production.ProducedMeaning | claw-node/crates/node/src/chain.rs:772-794 | the block a node hands out: its place, validator, hash, root and signature |
| Production.ProducingChanges | claw-node/crates/node/src/chain.rs:576-912 | all that producing a block makes of a node |
| Production.CacheAfterProducing | claw-node/crates/node/src/chain.rs:70-74 | the cache keeps the previous epoch and later ones |
| Production.MayProduceIff | claw-node/crates/node/src/chain.rs:472-507 | who may produce: the primary, and after six seconds the fallback |
| Production.BodyMeaning | claw-node/crates/node/src/chain.rs:636-706 | execution, then block reward, mining reward and fees, then the uptime of the slot |
| Production.ReplayMeaning | claw-node/crates/node/src/chain.rs:1036-1093 | the same for a verifier |
| Production.SettlementMeaning | claw-node/crates/node/src/chain.rs:716-730 | what is settled at which heights |
| Production.PendingIff | claw-node/crates/node/src/chain.rs:40-68 | exactly which witnesses are pending |
| Production.IncludedMeaning | claw-node/crates/node/src/chain.rs:716-756 | a block includes exactly the pending witnesses, by miner, and credits exactly their miners |
| Production.CheckedMeaning | claw-node/crates/node/src/chain.rs:1101-1203 | the world on which a verifier compares roots, credited miners and slot counters included |
| Mempool.SortedIsStable | claw-node/crates/node/src/chain.rs:625-626 | the mempool is sorted by sender and nonce, stably |
| Mempool.BatchMeaning | claw-node/crates/node/src/chain.rs:623-634 | the batch is the first 500 of that, the rest stays |
| Mempool.ExecuteOne | claw-node/crates/node/src/chain.rs:636-653 | one transaction is included if it is accepted and dropped if not |
| Mempool.ExecuteInParts | claw-node/crates/node/src/chain.rs:636-653 | a list is executed by executing its parts in turn |
| Mempool.ReplayOne | claw-node/crates/node/src/chain.rs:1036-1047 | one transaction replays if it is accepted |
| Mempool.ReplayInParts | claw-node/crates/node/src/chain.rs:1036-1047 | and replayed by replaying them, as long as none fails |
| Batches.ReplayRepeatsExecution | claw-node/crates/node/src/chain.rs:636-653 | replaying the included transactions, at whatever indices, repeats an execution whose failures leave no trace |
| Batches.ReplayRepeatsIff | claw-node/crates/node/src/chain.rs:1036-1047 | where calls outside staking fail cleanly, it repeats the execution if and only if no token is lost |
| Batches.TracelessIff | claw-node/crates/node/src/chain.rs:636-653 | the traces of a batch are exactly its losses and those of calls outside staking |
| Batches.ExecutionSupply | claw-node/crates/node/src/chain.rs:636-653 | an execution takes out of circulation its fees and its loss, nothing else |
| Transactions.TransactionSupply | claw-node/crates/state/src/world.rs:324-454 | the exact effect of a transaction on the supply: the fee of an accepted one, the loss of a refused one |
| Transactions.FailsCleanlyIff | claw-node/crates/state/src/world.rs:324-454 | when exactly a refused staking transaction leaves the state as it was, in any state |
| Transactions.BackedFailsCleanlyIff | claw-node/crates/state/src/world.rs:324-454 | in a state whose delegations are backed: exactly when it loses no token |
| Transactions.TransactionStaysBacked | claw-node/crates/state/src/world.rs:324-454 | accepted or refused, a transaction leaves every delegation to a validator with stake |
| Transactions.TransactionAcceptedIff | claw-node/crates/state/src/world.rs:324-454 | exactly which transactions are accepted: admitted, with the sender's next nonce, paid for, and successful |
| Transactions.StakingTakesEffect | claw-node/crates/state/src/world.rs:350-423 | an accepted staking transaction does what its own handler does, once the fee is paid |
| Transactions.StakingTouches | claw-node/crates/state/src/world.rs:350-452 | beyond the books it touches only the sender's nonce and statistics |
| Transactions.OtherTakesEffect | claw-node/crates/state/src/world.rs:350-452 | any other transaction: the price is taken first, and given back if the handler refuses |
| Transactions.StakingBalances | claw-node/crates/state/src/world.rs:324-454 | every balance after a staking transaction, accepted or refused |
| Nonces.TransactionNonce | claw-node/crates/state/src/world.rs:340-347 | an accepted transaction carries the sender's stored nonce plus one, and stores it |
| Nonces.ExecutionNonces | claw-node/crates/node/src/chain.rs:636-653 | the transactions a producer includes carry consecutive nonces, sender by sender |
| Nonces.AcceptedNonces | claw-node/crates/node/src/chain.rs:1036-1047 | so do those of every accepted block, and the stored nonces grow by their number |
| Nonces.RunNonces | claw-node/crates/node/src/chain.rs:576-1309 | over every run of a node that takes no snapshot, blocks of its own and of others, each sender's transactions enter the chain in the order of their nonces, without gap |
| Nonces.ExecutesOnce | claw-node/crates/state/src/world.rs:340-347 | so no transaction executes twice, in one block or in two, nor one executed before the run |
| Staking.DepositConserves | claw-node/crates/state/src/handlers.rs:951-1035 | a deposit only moves tokens, refused or not |
| Staking.DepositFailsCleanlyIff | claw-node/crates/state/src/handlers.rs:1006-1022 | a refused deposit leaves no trace unless a foreign delegation outlived the stake |
| Staking.BackedDepositFailsCleanly | claw-node/crates/state/src/handlers.rs:1006-1022 | which none does while delegations are backed |
| Staking.WithdrawSupply | claw-node/crates/state/src/handlers.rs:1102-1205 | a withdrawal conserves the supply but for the amount of one that the limit on entries stops |
| Staking.WithdrawFailsCleanlyIff | claw-node/crates/state/src/handlers.rs:1166-1195 | a refused withdrawal leaves no trace unless the limit on entries stopped it |
| Staking.WithdrawStaysBacked | claw-node/crates/state/src/handlers.rs:1166-1173 | a withdrawal of all the stake ends the delegation, even if the limit on entries stops it |
| Staking.ClaimSupply | claw-node/crates/state/src/handlers.rs:1208-1240 | a claim conserves the supply, or destroys the whole queue |
| Staking.ClaimFailsCleanlyIff | claw-node/crates/state/src/handlers.rs:1208-1240 | a claim succeeds exactly when an entry of the sender is mature and the sum fits; a refused one leaves no trace exactly when the queue was empty |
| Staking.DepositMeaning | claw-node/crates/state/src/handlers.rs:951-1035 | exactly which deposits succeed, and what they do to every balance, stake, delegation and commission |
| Staking.WithdrawMeaning | claw-node/crates/state/src/handlers.rs:1102-1205 | exactly which withdrawals succeed: one stake under the sender's control falls by the amount, and one entry of the sender, for that amount, is queued for 201600 blocks later |
| Staking.WithdrawSparesOthers | claw-node/crates/state/src/handlers.rs:1118-1147 | succeeding or not, a withdrawal leaves alone the stake, delegation and commission of every validator that is neither the sender nor delegated to it |
| Staking.EntriesMeaning | claw-node/crates/state/src/handlers.rs:1189-1193 | the limit counts the entries that pay the validator's address |
| Staking.QueueMeaning | claw-node/crates/state/src/handlers.rs:1219-1230 | a claim takes out exactly the sender's mature entries |
| Staking.QueueJoins | claw-node/crates/state/src/handlers.rs:1219-1230 | and leaves the others in their order |
| Staking.ClaimMeaning | claw-node/crates/state/src/handlers.rs:1208-1240 | a claim pays the sender its mature entries, and nobody else; exactly those leave the queue |
| TreasuryState.WorldState.HandleStakeDeposit | claw-node/crates/state/src/handlers.rs:951-1035 | the books after a deposit, and whether it succeeds |
| TreasuryState.WorldState.HandleStakeWithdraw | claw-node/crates/state/src/handlers.rs:1102-1205 | the books after a withdrawal, and whether it succeeds |
| TreasuryState.WorldState.HandleStakeClaim | claw-node/crates/state/src/handlers.rs:1208-1240 | the books after a claim, and whether it succeeds |
| Agreement.PendingPasses | claw-node/crates/node/src/chain.rs:40-68 | every witness `get_pending` offers passes checks (a) to (e) of a verifier on the same chain |
| Agreement.CheckinsAgree | claw-node/crates/node/src/chain.rs:1101-1193 | the verifier's check-in processing accepts the producer's witnesses and arrives at the same world |
| Agreement.SlotsAgree | claw-node/crates/node/src/chain.rs:1006-1033 | the verifier allows the proposer and records the same missed slot |
| Agreement.RotationAgrees | claw-node/crates/node/src/chain.rs:1257-1290 | epoch rotation keeps agreeing nodes in agreement |
| Bookkeeping.RewardedBooks | claw-node/crates/node/src/chain.rs:1049-1077 | block, mining and fee rewards return the fees less their burnt part, and move no check-in or booking |
| Bookkeeping.SettledBooks | claw-node/crates/node/src/chain.rs:716-730 | settlement conserves the supply of a world in order, before and after V3, and leaves it in order for the next block |
| NodeRuns.AppliedStaysSound | claw-node/crates/node/src/chain.rs:925-1309 | accepted or refused, a received block keeps a node's cache grounded in its chain and its books in order |
| NodeRuns.ProducingStaysSound | claw-node/crates/node/src/chain.rs:576-912 | so does producing one |
| NodeRuns.NetworkStaysInLockstep | claw-node/crates/node/src/chain.rs:576-1309 | over every fair run, whoever produces and while blocks leave no trace, all nodes agree on state, validators, counters and chain |
| NodeRuns.GossipQuorumsOverlap | claw-node/crates/node/src/chain.rs:962-1003 | two blocks accepted by gossip under the same seven or more validators share more than a third of them as signers |
| CheckinSafety.OneCreditPerEpoch | claw-node/crates/node/src/chain.rs:1159-1175 | along any chain of accepted blocks no two blocks of an epoch credit the same miner |
| CheckinSafety.OneWitnessPerBlock | claw-node/crates/node/src/chain.rs:1164-1167 | no block credits a miner twice |
| CheckinSafety.WitnessesAreUsedOnce | claw-node/crates/node/src/chain.rs:32-73 | on fair runs no witness enters two produced blocks, across epochs included |
| Checkins.GcIsUnobservable | claw-node/crates/node/src/chain.rs:70-74 | whatever was collected, a query for the current or a later epoch answers as if nothing ever was |
| Checkins.CheckinCache.GetPending | claw-node/crates/node/src/chain.rs:40-68 | the current epoch's fresh witnesses, then the previous epoch's for the other miners |
| Checkins.CheckinCache.Insert | claw-node/crates/node/src/chain.rs:33-35 | a witness is filed under its epoch and miner |
| Checkins.CheckinCache.Gc | claw-node/crates/node/src/chain.rs:71-73 | epochs before the previous one go |
| Node.ChainInner.ProduceBlock | claw-node/crates/node/src/chain.rs:576-912 | the node's whole new state and block, or nothing when it may not produce |
| Node.ChainInner.Leadership | claw-node/crates/node/src/chain.rs:472-507 | primary, or fallback after twice the block time |
| Node.ChainInner.ExecuteBatch | claw-node/crates/node/src/chain.rs:636-653 | the batch loop: failures dropped, fees and events collected |
| Node.ChainInner.IncludeWitnesses | claw-node/crates/node/src/chain.rs:710-772 | settlement, pending witnesses in miner order, credits, collection |
| Node.ChainInner.ApplyRemoteBlock | claw-node/crates/node/src/chain.rs:925-1309 | verdict and new state of a received block, refusals included |
| Node.ChainInner.CheckHeader | claw-node/crates/node/src/chain.rs:929-1003 | the checks before anything changes, in order |
| Node.ChainInner.CheckProposer | claw-node/crates/node/src/chain.rs:1006-1033 | primary or fallback; a fallback's block records the primary's miss before the body is checked |
| Node.ChainInner.CheckWitnesses | claw-node/crates/node/src/chain.rs:1122-1168 | the first witness that fails checks (a) to (f), and why |
| Node.ChainInner.Conclude | claw-node/crates/node/src/chain.rs:1095-1309 | check-ins, state root, supply and acceptance; a refused block may leave its witnesses cached |
| Node.ChainInner.Rotate | claw-node/crates/node/src/chain.rs:848-891 | offline set, releases, active set, counters and persisted slashing state after a rotation |
| Node.ChainInner.ApplyVote | claw-node/crates/node/src/chain.rs:533-573 | a vote for the tip adds its signature once |
| Node.ChainInner.OfferWitness | claw-node/crates/node/src/chain.rs:428-470 | a witness enters the cache if and only if it passes every check |
| Sync.ExchangeProgresses | claw-node/crates/node/src/chain.rs:1621-1893 | one exchange never lowers the node, and a follow-up comes closer in (gap, request kind) |
| Sync.DialogueNeverGoesBack | claw-node/crates/node/src/chain.rs:1569-1893 | over a whole dialogue the follower's height never drops |
| Sync.DialogueCatchesUp | claw-node/crates/node/src/chain.rs:1569-1893 | if every offer is taken the dialogue ends at the peer's height |
| Sync.SyncReachesAgreement | claw-node/crates/node/src/chain.rs:1623-1668 | a node that agrees with the chain's past accepts every batch and ends agreeing with its present |
| Sync.StatusReachesAgreement | claw-node/crates/node/src/chain.rs:1670-1705 | the same from a status request, up to 1000 blocks behind |
| Sync.StalledEndsIff | claw-node/crates/node/src/chain.rs:1621-1893 | when blocks do not help, too far behind or with the next block missing, of another chain or refused for its state root at every try, the dialogue ends exactly when the peer has a snapshot that settles it |
| Sync.StatusEndsIff | claw-node/crates/node/src/chain.rs:1569-1893 | a node that agrees with the chain's past ends the dialogue exactly when it is at most 1000 blocks behind a peer that holds the next block, or the peer's snapshot settles it |
| Sync.RestoredWorldIff | claw-node/crates/node/src/chain.rs:1861-1885 | but for what serialization skips, a restored node has the peer's world and slashing state exactly when no jail term ends at that epoch boundary |
| Sync.RestoredStaysSound | claw-node/crates/node/src/chain.rs:1800-1893 | restoring keeps the cache grounded and the books in order |
| Sync.BatchClimbs | claw-node/crates/node/src/chain.rs:1633-1655 | applied blocks raise the height one by one, and all are applied unless one is refused |
| Sync.SnapshotTakenIff | claw-node/crates/node/src/chain.rs:1706-1893 | exactly which snapshots a node takes: newer, of its own chain, with a block signed by a quorum of the validators it knows and by its own validator, and a world with that block's root; any other changes nothing |
| Sync.RestoredBooks | claw-node/crates/node/src/chain.rs:1800-1885 | the world and counters after taking one |
| Sync.RestoredMeaning | claw-node/crates/node/src/chain.rs:1800-1860 | and the rest of the node |
| Sync.AnswerMeaning | claw-node/crates/node/src/chain.rs:1569-1616 | what a peer answers: which blocks, which snapshot, or its height |
| Sync.StatusMeaning | claw-node/crates/node/src/chain.rs:1670-1705 | what a node asks for when it learns a peer's height |
| Sync.BlocksMeaning | claw-node/crates/node/src/chain.rs:1623-1668 | what it does with blocks, and asks for next |
| Sync.BatchOfOne | claw-node/crates/node/src/chain.rs:1633-1655 | one block of a batch is applied as any synced block |
| Sync.BatchInParts | claw-node/crates/node/src/chain.rs:1633-1655 | a batch is applied block by block up to the first refusal |
| Chain.Chain.HandleSyncRequest | claw-node/crates/node/src/chain.rs:1569-1616 | the answer, up to 100 consecutive blocks, a snapshot, or the height |
| Chain.Chain.HandleSyncResponse | claw-node/crates/node/src/chain.rs:1621-1900 | the node's new state and its next request, for every response |
| Chain.Chain.ApplySyncedBlocks | claw-node/crates/node/src/chain.rs:1633-1655 | blocks in order until one is refused |
| Rewards.Shares | claw-node/crates/state/src/rewards.rs:127-138 | proportional shares add up to the reward exactly, without underflow |
| Rewards.BlockRewardConserves | claw-node/crates/state/src/rewards.rs:91-178 | block rewards only move tokens |
| Rewards.FeesReturn | claw-node/crates/state/src/rewards.rs:188-258 | the supply grows by the rounded-down half and fifth of the fees |
| Rewards.MiningRewardConserves | claw-node/crates/state/src/rewards.rs:266-385 | mining rewards only move tokens, paid out or into the bucket |
| Rewards.BoundarySupply | claw-node/crates/state/src/rewards.rs:394-565 | the exact effect of an epoch boundary on the supply: the rewards of checked-in miners booked in another epoch are lost |
| Rewards.BoundaryConserves | claw-node/crates/state/src/rewards.rs:394-565 | with rewards booked in time a boundary conserves the supply |
| Rewards.BoundaryBooks | claw-node/crates/state/src/rewards.rs:503-559 | and leaves them booked for the next one |
| Rewards.PendingReachesSomeone | claw-node/crates/state/src/rewards.rs:454-541 | with rewards booked in time every balance after a boundary: checked-in miners get their pending rewards, the pool the forfeited ones and an unclaimed bucket, nobody else anything |
| RewardEffects.Schedule | claw-node/crates/state/src/rewards.rs:54-80 | ten tokens a block, then eight halved every 21024000 blocks five times |
| RewardEffects.RewardsNeverGrow | claw-node/crates/state/src/rewards.rs:54-80 | no block is worth more than an earlier one |
| RewardEffects.BlockRewardMeaning | claw-node/crates/state/src/rewards.rs:91-178 | every balance after a block reward: the pool pays, validators get their share by weight rounded down, the last one the rest, split with delegators by commission |
| RewardEffects.FeesMeaning | claw-node/crates/state/src/rewards.rs:188-258 | every balance after the fees of a block: half for the proposer, split by commission, a fifth for the ecosystem fund |
| RewardEffects.MiningRewardMeaning | claw-node/crates/state/src/rewards.rs:266-385 | every balance, and the bucket, after a mining reward |
| RewardEffects.SettledMeaning | claw-node/crates/state/src/rewards.rs:439-508 | what a boundary makes of a miner, by whether it attended the epoch |
| RewardEffects.BoundaryMeaning | claw-node/crates/state/src/rewards.rs:394-565 | what is booked for every miner at a boundary: its share of the bucket, by reputation and attendance |
| RewardEffects.ActivationMeaning | claw-node/crates/state/src/rewards.rs:412-437 | the first boundary of the epoch scheme settles nothing |
| RewardEffects.ActivityMeaning | claw-node/crates/state/src/rewards.rs:341-350 | which miners are dropped before the epoch scheme, and what migration sets |
| RewardEffects.TrackedMeaning | claw-node/crates/node/src/chain.rs:688-706 | whose uptime record a block changes, and how |
| RewardEffects.RewardedJoin | claw-node/crates/node/src/chain.rs:655-661 | who is rewarded is decided validator by validator, in order |
| RewardEffects.RewardedOne | claw-node/crates/node/src/chain.rs:655-661 | an active validator is rewarded by its weight unless it is offline |
| Rewards.TotalSupply | claw-node/crates/state/src/world.rs:727-736 | the sum of balances, stakes, unbonding entries, bucket and pending rewards |
| TreasuryState.WorldState.DistributeBlockReward | claw-node/crates/state/src/rewards.rs:91-178 | the balances after a block reward, commissions split |
| TreasuryState.WorldState.DistributeFees | claw-node/crates/state/src/rewards.rs:188-258 | the balances after a fee distribution |
| TreasuryState.WorldState.AccumulateMiningReward | claw-node/crates/state/src/rewards.rs:358-385 | bucket and pool, or direct payment before the epoch scheme |
| TreasuryState.WorldState.SettleMiner | claw-node/crates/state/src/rewards.rs:439-508 | one miner's settlement |
| TreasuryState.WorldState.BookShares | claw-node/crates/state/src/rewards.rs:543-556 | the bucket booked for qualified miners by weight |
| TreasuryState.WorldState.ProcessMinerEpochBoundary | claw-node/crates/state/src/rewards.rs:394-565 | activation, settlement and booking, and the check-ins of the epoch cleared |
| TreasuryState.WorldState.UpdateMinerActivity | claw-node/crates/state/src/rewards.rs:341-350 | silent miners deactivated before the epoch scheme |
| TreasuryState.WorldState.MigrateMinersV2ToV3 | claw-node/crates/state/src/rewards.rs:570-578 | heartbeats turned into last check-ins |
| ArenaSafety.EscapeHatch | contracts/arena-pool/src/logic.rs:110-298 | from every reachable state, paused or not and repeated players included, a player's refunds after the timeouts and then a withdrawal of the whole balance all succeed |
| ArenaSafety.RefundsFreeBalance | contracts/arena-pool/src/logic.rs:267-298 | the refunds, in any order, free every lock of the player and take nothing |
| ArenaSafety.ExactLockAccounting | contracts/arena-pool/src/logic.rs:130-353 | in every reachable state a lock is the sum of what active games hold, repeated players included, and the shares are as set at first |
| ArenaSafety.ReachableIsSafe | contracts/arena-pool/src/logic.rs:130-353 | with repeat-free lists every lock is also covered by its holder's balance |
| ArenaSafety.LockStaysCoveredIff | contracts/arena-pool/src/logic.rs:148-169 | locking keeps balances covered if and only if every listed player can pay for all its seats |
| ArenaSafety.RepeatedPlayerBreaksCover | contracts/arena-pool/src/logic.rs:148-154 | a repeated player passes the check and breaks the cover |
| ArenaSafety.Solvency | contracts/arena-pool/src/logic.rs:99-314 | deposits less transfers equal balances plus unclaimed fees, over every run |
| ArenaSafety.SharesStayWithinPot | contracts/arena-pool/src/logic.rs:204-213 | floored fee and burn never exceed the pot |
| ArenaSafety.FaultsIff | contracts/arena-pool/src/logic.rs:99-353 | while holdings times 10000 stay below 2^128, repeated players included: arithmetic leaves its range exactly on oversized inputs, oversized locks, and settlements of games whose seats are not all covered |
| ArenaSafety.FaultsOnlyOnOversizedInput | contracts/arena-pool/src/logic.rs:99-353 | with repeat-free lists, exactly on oversized inputs |
| ArenaPool.LowerMeaning | contracts/arena-pool/src/logic.rs:216-230 | charging succeeds exactly when every entry covers its seats, and takes exactly that |
| ArenaPool.OwedIsMultiplicity | contracts/arena-pool/src/logic.rs:157-161 | what a list owes for a player is the fee times the seats it holds |
| ArenaPool.RaiseMeaning | contracts/arena-pool/src/logic.rs:157-161 | locking succeeds exactly when no listed entry outgrows 128 bits, and adds one fee a seat |
| ArenaPool.CreditMeaning | contracts/arena-pool/src/logic.rs:219-225 | winners receive their amounts |
| ArenaEffects.DoneIff | contracts/arena-pool/src/logic.rs:75-354 | exactly which calls go through: who may call what, in which state, with which arguments; but for arithmetic that leaves its range |
| ArenaEffects.PlayerMeaning | contracts/arena-pool/src/logic.rs:75-354 | every call's effect on every player's balance and lock: a settlement takes the fee of each seat and pays each winner its own amounts |
| ArenaEffects.PoolMeaning | contracts/arena-pool/src/logic.rs:75-354 | every call's effect on games, fees, switch, owner and shares, and its transfers: the burn goes to the burn address, fees to the owner |
| ArenaEffects.PlayerAccount | contracts/arena-pool/src/logic.rs:99-238 | over every run a player's balance is what it deposited and won, less what it withdrew and its seats cost |
| ArenaEffects.PrizeOfWinner | contracts/arena-pool/src/logic.rs:221-224 | a winner listed once gets its own amount |
| ArenaContract.ContractState.ApplyDeposit | contracts/arena-pool/src/logic.rs:99-103 | new state or refusal of a deposit |
| ArenaContract.ContractState.ApplyWithdraw | contracts/arena-pool/src/logic.rs:110-124 | new state, transfer or refusal |
| ArenaContract.ContractState.ApplyLockEntries | contracts/arena-pool/src/logic.rs:130-170 | new state or refusal, in the order of the checks |
| ArenaContract.ContractState.ApplySettleGame | contracts/arena-pool/src/logic.rs:178-238 | charges, payouts, fee, burn and closing |
| ArenaContract.ContractState.ApplyRefundGame | contracts/arena-pool/src/logic.rs:244-261 | locks released by the platform |
| ArenaContract.ContractState.ApplyEmergencyRefund | contracts/arena-pool/src/logic.rs:267-298 | locks released by a participant after the timeout |
| ArenaContract.ContractState.ApplyClaimFees | contracts/arena-pool/src/logic.rs:305-314 | fees paid out and reset |
| ArenaContract.ContractState.ApplyCleanupGames | contracts/arena-pool/src/logic.rs:336-354 | closed games removed, or the first obstacle named |
| VaultStore.KeysAreDistinct | contracts/reward-vault/src/types.rs:84-124 | key builders are injective, and their ranges and the constant keys pairwise disjoint |
| VaultStore.HoldsIsOneToOne | contracts/reward-vault/src/types.rs:84-124 | byte stores and typed vaults correspond one to one |
| VaultStore.SetHolds | contracts/reward-vault/src/mock.rs:124-126 | writing one key changes one cell of the typed vault |
| Vault.InvokeAll | contracts/reward-vault/src/logic.rs:36-318 | every run over the byte store is the same run over the typed tables |
| Vault.Invoke | contracts/reward-vault/src/mock.rs:57-67 | one transaction, reverted when it panics |
| Vault.ApplyClaimReward | contracts/reward-vault/src/logic.rs:105-194 | checks in order, effects, transfer |
| Vault.ApplyInit | contracts/reward-vault/src/logic.rs:36-73 | the five constant cells and the platforms |
| Vault.ApplyCleanupClaims | contracts/reward-vault/src/logic.rs:284-294 | the nested loop removes exactly the listed addresses' earlier records |
| Vault.ApplyWithdraw | contracts/reward-vault/src/logic.rs:243-261 | the owner's withdrawal |
| Vault.ApplyFund | contracts/reward-vault/src/logic.rs:83-88 | a deposit |
| Vault.ApplySetDailyCap | contracts/reward-vault/src/logic.rs:201-204 | the cap alone changes, by the owner alone |
| Vault.ApplyAddPlatform | contracts/reward-vault/src/logic.rs:211-214 | one platform more |
| Vault.ApplyRemovePlatform | contracts/reward-vault/src/logic.rs:217-220 | one platform less |
| Vault.ApplyGetDailyClaimed | contracts/reward-vault/src/logic.rs:267-275 | today's record |
| Vault.MockEnv.Transfer | contracts/reward-vault/src/mock.rs:101-113 | a transfer from the contract, to itself included |
| VaultSafety.CapHolds | contracts/reward-vault/src/logic.rs:137-180 | with ordered timestamps and cleanups of past days, a day's payout never exceeds the largest cap in force that day |
| VaultSafety.CleanupForgetsIff | contracts/reward-vault/src/logic.rs:284-294 | when exactly a cleanup forgets a claim |
| VaultSafety.CleanupReopensCapIff | contracts/reward-vault/src/logic.rs:284-294 | an address can be paid beyond the cap on the day of a cleanup if and only if the cleanup lists it and reaches past that day |
| VaultSafety.CleanupOfTodayBreaksCap | contracts/reward-vault/src/logic.rs:284-294 | a cleanup of the current day lets a cap be paid twice |
| VaultSafety.NonceCountsClaims | contracts/reward-vault/src/logic.rs:137-180 | the stored nonce is the number of paid claims |
| VaultSafety.NoncesPayOnce | contracts/reward-vault/src/logic.rs:137-147 | paid claims carry the nonces 0, 1, 2, ...: each pays once |
| VaultSafety.RunConserves | contracts/reward-vault/src/mock.rs:101-118 | all balances together grow by what was funded, nothing else |
| VaultSafety.PanicsOnlyWithoutRights | contracts/reward-vault/src/logic.rs:36-318 | while all money fits in 128 bits a call panics exactly for a missing right, a second init, or an acceptable claim with a used-up nonce |
| VaultSafety.OnlyTheOwnerDecides | contracts/reward-vault/src/logic.rs:83-295 | while the owner does nothing, cap, pause, owner and platforms stay, claim records grow by exactly what is paid, and the vault's balance changes by claims and funding only |
| VaultSafety.OwnerIsForever | contracts/reward-vault/src/logic.rs:36-73 | once set, the owner never changes |
| VaultSafety.PaysIff | contracts/reward-vault/src/logic.rs:105-194 | exactly when a claim pays: not paused, called by an authorised platform, with the next nonce, within the day's cap, covered by the vault |
| VaultEffects.DoneIff | contracts/reward-vault/src/logic.rs:36-294 | exactly which calls go through |
| VaultEffects.BalancesMeaning | contracts/reward-vault/src/mock.rs:101-118 | every balance after a call |
| VaultEffects.TablesMeaning | contracts/reward-vault/src/logic.rs:36-294 | config, platforms, claim records and nonces after a call, cell by cell |
| VaultEffects.EveryAccount | contracts/reward-vault/src/mock.rs:101-118 | over every run each account holds what it was paid, and the vault what it was funded less what it paid |
| VaultEffects.OnlyPlatformsPay | contracts/reward-vault/src/logic.rs:105-135 | while the owner is silent, and the vault is paused or no platform calls, nothing is ever paid |
| Merkle.Hasher.MerkleRoot | claw-node/crates/crypto/src/merkle.rs:12-48 | the loop ends, with the root |
| Merkle.Hasher.RootIsTopDown | claw-node/crates/crypto/src/merkle.rs:12-48 | for every length the loop computes the tree defined from the top down |
| Merkle.Hasher.RootIsMth | claw-node/crates/crypto/src/merkle.rs:12-48 | over 2^k leaves it is the Merkle Tree Hash of section 2.1 of RFC 6962 |
| Merkle.Hasher.RootIsBinding | claw-node/crates/crypto/src/merkle.rs:18-47 | lists of equal length have equal roots if and only if they are equal |
| Merkle.Hasher.DuplicatedLastLeafSharesRoot | claw-node/crates/crypto/src/merkle.rs:30-44 | appending a copy of the last leaf of an odd list leaves the root alone |
| Voting.VoteCollector.AddVote | claw-node/crates/consensus/src/voting.rs:48-86 | a vote counts exactly when it is the voter's first and passes every check |
| Voting.ConflictingFinality | claw-node/crates/consensus/src/voting.rs:89-102 | finalizing two hashes at a height takes more than a third of the validators signing both |
| Voting.FinalityIsUnique | claw-node/crates/consensus/src/voting.rs:89-102 | at most floor((n-1)/3) faulty validators rule that out |
| Voting.FinalityIsStable | claw-node/crates/consensus/src/voting.rs:89-102 | more votes never undo finality |
| Voting.QuorumsOverlap | claw-node/crates/consensus/src/types.rs:20-25 | two quorums share more than a third of the validators |
| Voting.EmptySetFinalizesAnything | claw-node/crates/consensus/src/types.rs:20-25 | the quorum of an empty set is zero |
| ValidatorSet.ActiveIsTop | claw-node/crates/consensus/src/validator_set.rs:41-106 | the active set is exactly the first 21 eligible stakers by weight, then address |
| ValidatorSet.ActiveWeightsInRange | claw-node/crates/consensus/src/validator_set.rs:160-183 | every active weight lies in 1..10000 |
| ValidatorSet.ActiveIsNonEmpty | claw-node/crates/consensus/src/validator_set.rs:86-103 | with any stake at all somebody is active |
| ValidatorSet.ActiveMeaning | claw-node/crates/consensus/src/validator_set.rs:41-106 | exactly who is active, at which stake, score and weight, and in which order |
| ValidatorSet.ScoreMeaning | claw-node/crates/consensus/src/validator_set.rs:143-152 | each attestation adds to its subject's sum, which is cut off at zero and ten thousand |
| ValidatorSet.LastResort | claw-node/crates/consensus/src/validator_set.rs:90-103 | when nobody may serve the staker with the greatest address stays; it has the most stake exactly when no lower address has more |
| ValidatorSet.LastResortMayBePoorer | claw-node/crates/consensus/src/validator_set.rs:90-103 | two stakers of whom the poorer one stays |
| ValidatorSet.ValidatorSet.RecalculateActive | claw-node/crates/consensus/src/validator_set.rs:41-106 | the active set, whatever order the stakes are visited in |
| ValidatorSet.AggregateAgentScores | claw-node/crates/consensus/src/validator_set.rs:143-152 | per subject the sum of its scores, clamped |
| Election.ElectProposer | claw-node/crates/consensus/src/election.rs:13-51 | the walk over cumulative weights; the line after the loop is never reached |
| Election.ElectionIsExactPartition | claw-node/crates/consensus/src/election.rs:13-51 | each validator is elected for exactly `weight` of the residues |
| Election.ElectedIff | claw-node/crates/consensus/src/election.rs:36-46 | elected if and only if the residue falls into its interval |
| Election.ElectionMeaning | claw-node/crates/consensus/src/election.rs:13-51 | who is elected, for every seed |
| Election.ElectFallbackProposer | claw-node/crates/consensus/src/election.rs:57-84 | the fallback by sorting a copy |
| Election.FallbackIsBestOther | claw-node/crates/consensus/src/election.rs:57-84 | it exists, differs from the primary, and outranks every other validator |
| Election.FallbackIgnoresOrder | claw-node/crates/consensus/src/election.rs:57-84 | list order does not matter |
| Election.FallbackMeaning | claw-node/crates/consensus/src/election.rs:57-84 | who the fallback is: among the others the heaviest, and the lowest address among those |
| Slashing.SlashingState.ReportEquivocation | claw-node/crates/consensus/src/slashing.rs:70-140 | a refused report changes nothing; an accepted one jails, slashes and files the evidence |
| Slashing.StakeTable.Slash | claw-node/crates/consensus/src/slashing.rs:226-252 | the stake left, and what is burned |
| Slashing.SlashingState.ProcessDowntimePenalties | claw-node/crates/consensus/src/slashing.rs:164-188 | validators whose share of missed slots, in whole percent, is above 50 |
| Slashing.StakeIsConserved | claw-node/crates/consensus/src/slashing.rs:70-252 | stakes plus burned amounts never change, over any run |
| Slashing.EvidenceActsOnce | claw-node/crates/consensus/src/slashing.rs:77-140 | no fingerprint is acted on twice, resets and releases included |
| Slashing.StakesStayAboveMinimum | claw-node/crates/consensus/src/slashing.rs:226-252 | a stake at or above the minimum stays so or disappears |
| Slashing.UnjailingIsUnobservable | claw-node/crates/consensus/src/slashing.rs:59-217 | with ordered heights releases never change who is jailed at any later height |
| Slashing.ReportMeaning | claw-node/crates/consensus/src/slashing.rs:70-140 | exactly which reports are acted on, and what they do to anybody: 100 blocks of jail, a tenth of the stake or all of it |
| Slashing.TurnedRoundConvictsIff | claw-node/crates/consensus/src/slashing.rs:77-90 | when the same evidence with its two blocks exchanged convicts again |
| Slashing.OfflineIff | claw-node/crates/consensus/src/slashing.rs:164-188 | who is offline: whoever missed at least 51 of 100 assigned slots |
| Slashing.OfflineFromSlots | claw-node/crates/consensus/src/slashing.rs:142-195 | the same, from the slots recorded since the last reset |
| Borsh.ParseInvertsSerialize | claw-sdk/src/serialization.ts:277-295 | parsing the documented layout inverts serialization of every well-sized transaction |
| Borsh.SerializeInvertsParse | claw-sdk/src/serialization.ts:277-295 | whatever parses is the serialization of what it parses to |
| Borsh.SignableIsInjective | claw-sdk/src/serialization.ts:268-275 | equal signed bytes if and only if equal payload, sender, type and nonce modulo their widths |
| Borsh.SenderLengthMatters | claw-sdk/src/serialization.ts:268-275 | without a fixed sender length the signed bytes are ambiguous |
| Borsh.SignedPart | claw-sdk/src/serialization.ts:268-295 | the signed bytes are the serialized ones without length and signature, field by field |
| Borsh.SerializeTransaction | claw-sdk/src/serialization.ts:287-295 | the bytes pushed |
| Borsh.SignableBytes | clawpay/src/core/transaction.ts:116-128 | the bytes signed |
| Borsh.Buffer.WriteU32LE | clawpay/src/core/transaction.ts:37-42 | shifting and masking a number writes it modulo 2^32 |
| Borsh.Buffer.WriteU64LE | claw-sdk/src/serialization.ts:45-50 | two halves are the whole modulo 2^64 |
| Borsh.Buffer.WriteU128LE | claw-sdk/src/serialization.ts:52-55 | and modulo 2^128 |
| Borsh.Buffer.WriteI16LE | claw-sdk/src/serialization.ts:35-39 | two's complement |
| Borsh.MinerSignableBytes | claw-miner/src/clawminer/tx.py:64-86 | the same signed bytes as the TypeScript client, or an error for a nonce out of range |
| Borsh.BuildTransaction | claw-miner/src/clawminer/tx.py:130-173 | the same transaction bytes, or an error for nonce or payload out of range |
| Metadata.EncodeAgentRegisterPayload | claw-sdk/src/serialization.ts:93-101 | name, then the sorted map |
| Metadata.OnlyContentsMatter | claw-sdk/src/serialization.ts:81-89 | the order in which properties were set does not show |
| Metadata.RegistrationIsInjective | claw-sdk/src/serialization.ts:81-101 | equal payloads if and only if equal name and map contents |
| Metadata.SortedLayout | claw-sdk/src/serialization.ts:81-101 | name, count and the pairs by key, each text behind its length |
| Metadata.SameAsRustIff | claw-sdk/src/serialization.ts:81-89 | the exact condition under which the bytes are those of a Rust `BTreeMap` |
| Metadata.OrdersDiffer | claw-sdk/src/serialization.ts:81-89 | two keys for which they are not |
| Metadata.WriteStringMap | claw-sdk/src/serialization.ts:81-89 | sorted keys, pair by pair; a missing map is empty |
| Text.OrdersDisagreeIffInverted | claw-sdk/src/serialization.ts:83 | when UTF-16 and UTF-8 order differ |
| Text.Utf8OrderIsScalarOrder | claw-sdk/src/serialization.ts:63-67 | UTF-8 keeps the order of scalar values |
| Amount.AmountRoundTrip | clawpay/src/core/transaction.ts:152-171 | parsing a printed amount gives it back, for every amount and number of decimals |
| Amount.PrintedIff | clawpay/src/core/transaction.ts:163-171 | an amount is printed as the one canonical decimal of its worth |
| Amount.NodeReadsBackIff | claw-node/crates/node/src/main.rs:727-744 | the command line reads a printed amount back exactly when it fits in 128 bits |
| Amount.CommandLineAcceptsIff | claw-node/crates/node/src/main.rs:727-744 | plus signs and outer white space aside, the command line accepts exactly the plain decimals of at most nine places worth less than 2^128, as that value |
| Amount.WalletReadsDigitsAndDots | clawpay/src/core/transaction.ts:152-161 | the wallet accepts every text of digits and dots, and as what |
| Amount.ParsersAgreeIff | clawpay/src/core/transaction.ts:152-161 | on such texts the two agree exactly where the command line accepts |
| Amount.ParsersAgree | claw-node/crates/node/src/main.rs:727-744 | what the command line accepts the wallet reads alike, plus signs and outer white space aside |
| Amount.MissingWhole | clawpay/src/core/transaction.ts:152-161 | the wallet takes a missing whole part as zero, the command line refuses it |
| Amount.LongFraction | clawpay/src/core/transaction.ts:152-161 | the wallet drops digits beyond the ninth, the command line refuses them |

## Left out

- Nonces.RunNonces: ends at a snapshot, which replaces all nonces by those of the peer's world.
- Widths of the arena: an operation whose unchecked `u128` arithmetic leaves its range ends as `Fault`, whatever the build does then; a caller sees no state after it, because the virtual machine reverts the frame. The vault's panics are treated alike.
- libp2p, RPC, tokio, the storage engine, pruning, metrics, key files and command line handlers: plumbing. The block store is a map from height to block, and storage failures do not occur.
- Restarting a node from storage (`Chain::new` after genesis): it rebuilds the validator set from stakes alone, so it is not equivalent to the running node.
- Addresses, hashes and signatures of the node, consensus and arena models are natural numbers, ordered as their bytes are; the vault's addresses are 32 bytes.
- The transaction handlers other than the three that stake, block events of rewards, receipts, agent scores of the state crate: parameters, or not read by anything modelled. Per-user delegations are in neither the root nor any decision, and left out. A staking transaction whose payload does not decode is one of the other kinds.
- `apply_tx` around its handlers (size, signature, nonce, gas, bookkeeping) is a function of the world, because the node model holds the world as a value; the staking handlers are also methods that update it in place.
- Acceptance.AcceptedIff: takes batches whose failing contract calls leave balances as they were (`OthersFailCleanly`); `LossIsRefused` holds without that.
- Widths of the treasury: balances, stakes and release heights do not overflow, but where a handler checks.
- Rewards.Shares: does not model the saturating 64-bit sum of validator weights; active weights are at most 10000 each (`ActiveWeightsInRange`), 21 of them at most.
- ValidatorSet.AggregateAgentScores: sums without the overflow of a signed 64-bit number.
- The weight split is the cold-start one, which is the only one the node ever sets.
- Slashing: a signature of the wrong length is a verification that fails.
- Sync: `saturating_add` at the top of the height range, the choice of peers and timers are not modelled; a clock reading is a parameter of each turn.
- Sync.RestoredWorldIff: says nothing of the active and offline sets, which a snapshot does not carry.
- Sync.SyncReachesAgreement: does not go through a snapshot, because a restored node need not agree on the active set.
- Payload encoders other than agent registration: they use the same writers and would only add easy members.
- Text that is not well-formed Unicode, which JavaScript strings may hold: a text is a sequence of scalar values.
- Amount: the language's integer parser is a parameter of which only its reading of digits is used; negative amounts are not printed.
- claw-bridge, explorer-indexer, the OpenClaw plugin, the MCP server, middleware and the scaffolding tool: other programs.
