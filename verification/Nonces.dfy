/** No transaction executes twice: nonces of included transactions count up, sender by sender, over every run of a node. */
module Nonces {
  import opened Common
  import opened ConsensusTypes
  import opened NodeTypes
  import opened Checkins
  import opened NodeSpec
  import opened Agreement
  import opened NodeRuns
  import opened Verdicts
  import Rewards
  import Staking

  // ---------------------------------------------------------------- one transaction

  lemma HandlersKeepNonces(k: Kernel, w: World, tx: Tx, i: nat)
    requires k.NoncesLawful()
    ensures k.Dispatched(w, tx, i).0.ledger.nonces == w.ledger.nonces
  {
    hide Books, Staking.Deposit, Staking.Withdraw, Staking.Claim;
  }

  /** Acceptance stores the transaction's nonce, which is the next of its sender; refusal leaves nonces alone. */
  lemma TransactionNonce(k: Kernel, w: World, tx: Tx, i: nat)
    requires k.NoncesLawful()
    ensures var (after, receipt) := k.ApplyTx(w, tx, i);
      if receipt.Some? then
        tx.nonce == Get(w.ledger.nonces, tx.from) + 1 && after.ledger.nonces == w.ledger.nonces[tx.from := tx.nonce]
      else after.ledger.nonces == w.ledger.nonces
  {
    hide Kernel.Dispatched, Kernel.NoncesLawful, Books;
    if k.Reaches(w, tx) {
      HandlersKeepNonces(k, Charged(w, tx.from, k.Fee(tx)), tx, i);
    }
  }

  // ---------------------------------------------------------------- many transactions

  function CountOf(txs: seq<Tx>, a: Address): nat {
    if txs == [] then 0 else (if txs[0].from == a then 1 else 0) + CountOf(txs[1..], a)
  }

  lemma {:induction false} CountJoins(xs: seq<Tx>, ys: seq<Tx>, a: Address)
    ensures CountOf(xs + ys, a) == CountOf(xs, a) + CountOf(ys, a)
  {
    if xs == [] {
      assert xs + ys == ys;
    } else {
      assert (xs + ys)[1..] == xs[1..] + ys;
      CountJoins(xs[1..], ys, a);
    }
  }

  /** Each transaction carries its sender's first nonce, plus one for each earlier one of the sender; the stored nonces grow
    * by as many. */
  ghost predicate Consecutive(before: map<Address, nat>, txs: seq<Tx>, after: map<Address, nat>) {
    && (forall n :: 0 <= n < |txs| ==> txs[n].nonce == Get(before, txs[n].from) + 1 + CountOf(txs[..n], txs[n].from))
    && (forall a :: Get(after, a) == Get(before, a) + CountOf(txs, a))
  }

  lemma NoneIsConsecutive(nonces: map<Address, nat>)
    ensures Consecutive(nonces, [], nonces)
  {
  }

  lemma OneIsConsecutive(before: map<Address, nat>, tx: Tx)
    requires tx.nonce == Get(before, tx.from) + 1
    ensures Consecutive(before, [tx], before[tx.from := tx.nonce])
  {
    assert [tx][..0] == [];
    forall a
      ensures CountOf([tx], a) == if tx.from == a then 1 else 0
    {
      assert [tx][1..] == [];
      assert CountOf([tx][1..], a) == 0;
    }
  }

  lemma ConsecutiveJoins(before: map<Address, nat>, xs: seq<Tx>, between: map<Address, nat>, ys: seq<Tx>, after: map<Address, nat>)
    requires Consecutive(before, xs, between) && Consecutive(between, ys, after)
    ensures Consecutive(before, xs + ys, after)
  {
    var all := xs + ys;
    forall n | 0 <= n < |all|
      ensures all[n].nonce == Get(before, all[n].from) + 1 + CountOf(all[..n], all[n].from)
    {
      if n < |xs| {
        assert all[..n] == xs[..n];
      } else {
        assert all[..n] == xs + ys[..n - |xs|];
        CountJoins(xs, ys[..n - |xs|], all[n].from);
      }
    }
    forall a
      ensures Get(after, a) == Get(before, a) + CountOf(all, a)
    {
      CountJoins(xs, ys, a);
    }
  }

  lemma {:induction false} CountGrows(txs: seq<Tx>, i: nat, j: nat)
    requires i < j < |txs|
    ensures CountOf(txs[..i], txs[i].from) < CountOf(txs[..j], txs[i].from)
  {
    assert txs[..j] == txs[..i] + txs[i..j];
    CountJoins(txs[..i], txs[i..j], txs[i].from);
  }

  /** Consecutive nonces are different nonces. */
  lemma NoNonceTwice(before: map<Address, nat>, txs: seq<Tx>, after: map<Address, nat>, i: nat, j: nat)
    requires Consecutive(before, txs, after) && i < j < |txs| && txs[i].from == txs[j].from
    ensures txs[i].nonce < txs[j].nonce
  {
    CountGrows(txs, i, j);
  }

  /** The transactions a producer includes carry consecutive nonces, whatever else it drops. */
  lemma {:induction false} ExecutionNonces(k: Kernel, w: World, txs: seq<Tx>, i: nat)
    requires k.NoncesLawful()
    ensures var run := Execute(k, w, txs, i); Consecutive(w.ledger.nonces, run.included, run.world.ledger.nonces)
    decreases |txs|
  {
    hide Kernel.ApplyTx, Kernel.NoncesLawful, Consecutive;
    if txs == [] {
      NoneIsConsecutive(w.ledger.nonces);
    } else {
      var (after, receipt) := k.ApplyTx(w, txs[0], i);
      TransactionNonce(k, w, txs[0], i);
      ExecutionNonces(k, after, txs[1..], i + 1);
      if receipt.Some? {
        var rest := Execute(k, after, txs[1..], i + 1);
        OneIsConsecutive(w.ledger.nonces, txs[0]);
        ConsecutiveJoins(w.ledger.nonces, [txs[0]], after.ledger.nonces, rest.included, rest.world.ledger.nonces);
      }
    }
  }

  /** So do those a verifier lets pass. */
  lemma {:induction false} ReplayNonces(k: Kernel, w: World, txs: seq<Tx>, i: nat)
    requires k.NoncesLawful() && Replay(k, w, txs, i).Some?
    ensures Consecutive(w.ledger.nonces, txs, Replay(k, w, txs, i).value.0.ledger.nonces)
    decreases |txs|
  {
    hide Kernel.ApplyTx, Kernel.NoncesLawful, Consecutive;
    if txs == [] {
      NoneIsConsecutive(w.ledger.nonces);
    } else {
      var after := k.ApplyTx(w, txs[0], i).0;
      TransactionNonce(k, w, txs[0], i);
      ReplayNonces(k, after, txs[1..], i + 1);
      var end := Replay(k, w, txs, i).value.0;
      OneIsConsecutive(w.ledger.nonces, txs[0]);
      ConsecutiveJoins(w.ledger.nonces, [txs[0]], after.ledger.nonces, txs[1..], end.ledger.nonces);
      assert [txs[0]] + txs[1..] == txs;
    }
  }

  // ---------------------------------------------------------------- blocks

  lemma RewardsKeepNonces(k: Kernel, w: World, rewarded: seq<(Address, nat)>, proposer: Address, height: nat, fees: nat)
    ensures Rewarded(k, w, rewarded, proposer, height, fees).0.ledger.nonces == w.ledger.nonces
  {
    hide Books, Rewards.BlockReward, Rewards.MiningReward, Rewards.FeesDistributed;
  }

  lemma SettlementKeepsNonces(k: Kernel, w: World, height: nat)
    ensures Settled(k, w, height).0.ledger.nonces == w.ledger.nonces
    ensures SettledBeforeV3(k, w, height).0.ledger.nonces == w.ledger.nonces
  {
    hide Books, Rewards.Migrated, Rewards.EpochBoundary, Rewards.ActivityUpdated;
  }

  lemma CheckinsKeepNonces(k: Kernel, w: World, store: map<nat, Block>, height: nat, ws: seq<Witness>)
    requires VerifyCheckins(k, w, store, height, ws).Ok?
    ensures VerifyCheckins(k, w, store, height, ws).value.ledger.nonces == w.ledger.nonces
  {
    SettlementKeepsNonces(k, w, height);
    hide Settled, SettledBeforeV3, FirstFault, CreditAll;
  }

  lemma IncludingKeepsNonces(k: Kernel, w: World, cache: Cache, height: nat)
    ensures IncludeCheckins(k, w, cache, height).world.ledger.nonces == w.ledger.nonces
  {
    SettlementKeepsNonces(k, w, height);
    hide Settled, SettledBeforeV3, CreditAll, InMinerOrder, Pending, Swept;
  }

  lemma AdoptionKeepsLedger(k: Kernel, s: NodeState, b: Block, world: World)
    ensures Rotated(Adopted(k, s, b, world), b.height).world.ledger == world.ledger
  {
    RotationKeepsLedger(Adopted(k, s, b, world), b.height);
    hide Rotated;
  }

  lemma ReplayWorldNonces(k: Kernel, s: NodeState, b: Block)
    requires k.NoncesLawful() && ReplayWorld(k, s, b).Some?
    ensures Consecutive(s.world.ledger.nonces, b.transactions, ReplayWorld(k, s, b).value.0.ledger.nonces)
  {
    hide Replay, Rewarded, Consecutive, Kernel.NoncesLawful;
    var start := s.world.(blockHeight := b.height, blockTimestamp := b.timestamp);
    ReplayNonces(k, start, b.transactions, 0);
    var (w, fees) := Replay(k, start, b.transactions, 0).value;
    RewardsKeepNonces(k, w, RewardedValidators(s.active, s.offline), b.validator, b.height, fees);
  }

  lemma AcceptedNonces(k: Kernel, s: NodeState, b: Block, isSync: bool, clock: nat)
    requires k.NoncesLawful() && Applied(k, s, b, isSync, clock).1 == Accepted
    ensures Consecutive(s.world.ledger.nonces, b.transactions, Applied(k, s, b, isSync, clock).0.world.ledger.nonces)
  {
    hide HeaderFault, ProposerAllowed, VerifierSlashing, ReplayWorld, Concluded, VerifyCheckins, Rotated, Adopted, Consecutive,
      Kernel.NoncesLawful, AllInserted;
    var t := s.(slashing := VerifierSlashing(k, s, b));
    var (w, fees) := ReplayWorld(k, s, b).value;
    ReplayWorldNonces(k, s, b);
    ConclusionParts(k, t, b, w, fees);
    CheckinsKeepNonces(k, w, s.store, b.height, b.checkins);
    AdoptionKeepsLedger(k, t.(cache := CacheAfter(t, b)), b,
                        WithSlashing(VerifyCheckins(k, w, s.store, b.height, b.checkins).value, t.slashing));
  }

  lemma ProducerBodyNonces(k: Kernel, s: NodeState, now: nat)
    requires k.NoncesLawful()
    ensures Consecutive(s.world.ledger.nonces, ProducerRun(k, s, now).included, ProducerBody(k, s, now).0.ledger.nonces)
  {
    hide Execute, Rewarded, Consecutive, Batch, Kernel.NoncesLawful;
    var run := ProducerRun(k, s, now);
    ExecutionNonces(k, s.world.(blockHeight := s.latest.height + 1, blockTimestamp := now), Batch(s.mempool), 0);
    RewardsKeepNonces(k, run.world, RewardedValidators(s.active, s.offline), s.self, s.latest.height + 1, run.fees);
  }

  lemma ProducedNonces(k: Kernel, s: NodeState, now: nat)
    requires k.NoncesLawful()
    ensures Consecutive(s.world.ledger.nonces, ProducedBlock(k, s, now).transactions, AfterProducing(k, s, now).world.ledger.nonces)
  {
    hide ProducerRun, ProducerBody, IncludeCheckins, Rotated, Adopted, Consecutive, Kernel.NoncesLawful;
    var p, b := ProduceWorld(k, s, now), ProducedBlock(k, s, now);
    ProducerBodyNonces(k, s, now);
    IncludingKeepsNonces(k, ProducerBody(k, s, now).0, s.cache, s.latest.height + 1);
    AdoptionKeepsLedger(k, s.(mempool := Excess(s.mempool), slashing := ProducerSlashing(k, s), cache := p.cache), b, p.world);
  }

  // ---------------------------------------------------------------- runs of a node

  /** Whatever a node does short of taking a snapshot. */
  datatype Move =
    | Receive(block: Block, isSync: bool, clock: nat)
    | Make(now: nat)
    | TakeVote(voter: Address, height: nat, hash: Hash, signature: Signature)
    | TakeWitness(entry: Witness)
    | Fill(txs: seq<Tx>)

  ghost function After(k: Kernel, s: NodeState, move: Move): NodeState {
    match move
    case Receive(b, isSync, clock) => Applied(k, s, b, isSync, clock).0
    case Make(now) => AfterProducing(k, s, now)
    case TakeVote(voter, height, hash, signature) => Voted(k, s, voter, height, hash, signature)
    case TakeWitness(w) => Offered(k, s, w)
    case Fill(txs) => s.(mempool := txs)
  }

  /** The transactions that a move puts on the node's chain. */
  ghost function Executed(k: Kernel, s: NodeState, move: Move): seq<Tx> {
    match move
    case Receive(b, isSync, clock) => if Applied(k, s, b, isSync, clock).1 == Accepted then b.transactions else []
    case Make(now) => ProducedBlock(k, s, now).transactions
    case _ => []
  }

  ghost function AllExecuted(k: Kernel, s: NodeState, moves: seq<Move>): seq<Tx>
    decreases |moves|
  {
    if moves == [] then [] else Executed(k, s, moves[0]) + AllExecuted(k, After(k, s, moves[0]), moves[1..])
  }

  ghost function AfterAll(k: Kernel, s: NodeState, moves: seq<Move>): NodeState
    decreases |moves|
  {
    if moves == [] then s else AfterAll(k, After(k, s, moves[0]), moves[1..])
  }

  lemma MoveNonces(k: Kernel, s: NodeState, move: Move)
    requires k.NoncesLawful()
    ensures Consecutive(s.world.ledger.nonces, Executed(k, s, move), After(k, s, move).world.ledger.nonces)
  {
    hide Applied, AfterProducing, ProducedBlock, Consecutive, Kernel.NoncesLawful;
    NoneIsConsecutive(s.world.ledger.nonces);
    match move
    case Receive(b, isSync, clock) =>
      if Applied(k, s, b, isSync, clock).1 == Accepted {
        AcceptedNonces(k, s, b, isSync, clock);
      } else {
        RefusedChangesLittle(k, s, b, isSync, clock);
      }
    case Make(now) => ProducedNonces(k, s, now);
    case _ =>
  }

  /** Over every run of a node, each sender's transactions enter the chain in the order of their nonces, without gap. */
  lemma {:induction false} RunNonces(k: Kernel, s: NodeState, moves: seq<Move>)
    requires k.NoncesLawful()
    ensures Consecutive(s.world.ledger.nonces, AllExecuted(k, s, moves), AfterAll(k, s, moves).world.ledger.nonces)
    decreases |moves|
  {
    hide After, Executed, Consecutive, Kernel.NoncesLawful;
    if moves == [] {
      NoneIsConsecutive(s.world.ledger.nonces);
    } else {
      var t := After(k, s, moves[0]);
      MoveNonces(k, s, moves[0]);
      RunNonces(k, t, moves[1..]);
      ConsecutiveJoins(s.world.ledger.nonces, Executed(k, s, moves[0]), t.world.ledger.nonces,
                       AllExecuted(k, t, moves[1..]), AfterAll(k, t, moves[1..]).world.ledger.nonces);
    }
  }

  /** No transaction executes twice, in one block or in two, and none that was executed before the run. */
  lemma ExecutesOnce(k: Kernel, s: NodeState, moves: seq<Move>, i: nat, j: nat)
    requires k.NoncesLawful() && i < j < |AllExecuted(k, s, moves)|
    ensures var txs := AllExecuted(k, s, moves);
      && txs[i] != txs[j] && (txs[i].from == txs[j].from ==> txs[i].nonce < txs[j].nonce)
      && txs[i].nonce > Get(s.world.ledger.nonces, txs[i].from)
  {
    hide AfterAll, AllExecuted, Kernel.NoncesLawful;
    var txs := AllExecuted(k, s, moves);
    RunNonces(k, s, moves);
    if txs[i].from == txs[j].from {
      NoNonceTwice(s.world.ledger.nonces, txs, AfterAll(k, s, moves).world.ledger.nonces, i, j);
    }
  }
}
