/** Exactly which produced blocks the other nodes accept. */
module Acceptance {
  import opened Common
  import opened NodeTypes
  import opened NodeSpec
  import opened Bookkeeping
  import opened Batches
  import opened Agreement
  import opened NodeRuns
  import Rewards
  import Staking

  // ---------------------------------------------------------------- what a state root tells

  /** The world whose root a verifier compares with that of the block, if it gets that far. */
  function CheckedWorld(k: Kernel, v: NodeState, b: Block): Option<World> {
    match ReplayWorld(k, v, b)
    case None => None
    case Some((w, _)) =>
      match VerifyCheckins(k, w, v.store, b.height, b.checkins)
      case Err(_) => None
      case Ok(own) => Some(WithSlashing(own, VerifierSlashing(k, v, b)))
  }

  /** Equal in every token a root shows: the order of the unbonding queue it does not, and mining rewards only since
    * they are pooled. */
  ghost predicate SameTokens(height: nat, a: World, b: World) {
    && a.ledger.balances == b.ledger.balances && a.stakes == b.stakes
    && multiset(a.ledger.unbonding) == multiset(b.ledger.unbonding)
    && (height >= Rewards.HEARTBEAT_V2_HEIGHT ==>
          a.ledger.bucket == b.ledger.bucket && Rewards.Pendings(Books(a).miners) == Rewards.Pendings(Books(b).miners))
  }

  /** If these two worlds have one root, they hold the same tokens. */
  ghost predicate RootTells(k: Kernel, height: nat, a: World, b: World) {
    k.stateRoot(a) == k.stateRoot(b) ==> SameTokens(height, a, b)
  }

  lemma {:induction false} EntryAnywhere(a: seq<Rewards.Unbonding>, e: Rewards.Unbonding, b: seq<Rewards.Unbonding>)
    ensures Sum(Rewards.Amounts(a + [e] + b)) == e.amount + Sum(Rewards.Amounts(a + b))
  {
    if a == [] {
      assert a + [e] + b == [e] + b && a + b == b;
      Staking.FirstEntry(e, b);
    } else {
      EntryAnywhere(a[1..], e, b);
      assert (a + [e] + b)[1..] == a[1..] + [e] + b && (a + b)[1..] == a[1..] + b;
    }
  }

  function Without(q: seq<Rewards.Unbonding>, i: nat): seq<Rewards.Unbonding>
    requires i < |q|
  {
    q[..i] + q[i + 1..]
  }

  lemma WithoutEntry(q: seq<Rewards.Unbonding>, i: nat)
    requires i < |q|
    ensures |Without(q, i)| == |q| - 1
    ensures multiset(Without(q, i)) == multiset(q) - multiset{q[i]}
    ensures Sum(Rewards.Amounts(q)) == q[i].amount + Sum(Rewards.Amounts(Without(q, i)))
  {
    assert q == q[..i] + [q[i]] + q[i + 1..];
    hide Sum, Rewards.Amounts;
    EntryAnywhere(q[..i], q[i], q[i + 1..]);
  }

  lemma {:induction false} SameEntriesSameSum(a: seq<Rewards.Unbonding>, b: seq<Rewards.Unbonding>)
    requires multiset(a) == multiset(b)
    ensures Sum(Rewards.Amounts(a)) == Sum(Rewards.Amounts(b))
    decreases |a|
  {
    hide Sum, Rewards.Amounts, Without;
    if a == [] {
      assert |multiset(b)| == 0;
    } else {
      assert a[0] in multiset(b);
      var i :| 0 <= i < |b| && b[i] == a[0];
      WithoutEntry(a, 0);
      WithoutEntry(b, i);
      SameEntriesSameSum(Without(a, 0), Without(b, i));
    }
  }

  /** Before they are pooled, rewards booked in order are none. */
  lemma NothingPendingYet(w: World, height: nat)
    requires height < Rewards.HEARTBEAT_V2_HEIGHT && Booked(w, height + 1)
    ensures Total(Rewards.Pendings(Books(w).miners)) == 0
  {
    Rewards.NothingPending(Books(w).miners);
  }

  lemma SameTokensSameSupply(height: nat, a: World, b: World)
    requires SameTokens(height, a, b) && Booked(a, height + 1) && Booked(b, height + 1)
    requires height < Rewards.HEARTBEAT_V2_HEIGHT ==> a.ledger.bucket == b.ledger.bucket
    ensures Supply(a) == Supply(b)
  {
    SameEntriesSameSum(a.ledger.unbonding, b.ledger.unbonding);
    if height < Rewards.HEARTBEAT_V2_HEIGHT {
      NothingPendingYet(a, height);
      NothingPendingYet(b, height);
    }
    hide Booked, Rewards.Pendings, Rewards.Amounts, Accounts;
  }

  // ---------------------------------------------------------------- the two worlds

  /** The verifier's world has the stakes its transactions left, and its books are in order. */
  lemma CheckedBooks(k: Kernel, v: NodeState, b: Block)
    requires k.TokensLawful() && Booked(v.world, b.height) && CheckedWorld(k, v, b).Some?
    ensures var replayed := Replay(k, v.world.(blockHeight := b.height, blockTimestamp := b.timestamp), b.transactions, 0);
      var checked := CheckedWorld(k, v, b).value;
      && replayed.Some? && replayed.value.1 == ReplayWorld(k, v, b).value.1
      && checked.stakes == replayed.value.0.stakes && Booked(checked, b.height + 1)
      && (b.height < Rewards.HEARTBEAT_V2_HEIGHT ==> checked.ledger.bucket == v.world.ledger.bucket)
  {
    hide Booked, Supply, FeeBurn, Kernel.TokensLawful, Rewarded, Replay, VerifyCheckins, VerifierSlashing;
    var start := v.world.(blockHeight := b.height, blockTimestamp := b.timestamp);
    OtherFieldsDoNotMatter(start, v.world);
    ReplayBooks(k, start, b.transactions, 0, b.height);
    var (w, fees) := Replay(k, start, b.transactions, 0).value;
    RewardedBooks(k, w, RewardedValidators(v.active, v.offline), b.validator, b.height, fees);
    ReplayWorldBooks(k, v, b);
    var body := ReplayWorld(k, v, b).value.0;
    VerifiedBooks(k, body, v.store, b.height, b.checkins);
    var own := VerifyCheckins(k, body, v.store, b.height, b.checkins).value;
    OtherFieldsDoNotMatter(CheckedWorld(k, v, b).value, own);
  }

  /** Acceptance means that the roots agree and the supply check passes. */
  lemma AcceptedChecks(k: Kernel, v: NodeState, b: Block, isSync: bool, clock: nat)
    requires Applied(k, v, b, isSync, clock).1 == Accepted
    ensures HeaderFault(k, v, b, isSync, clock) == None && CheckedWorld(k, v, b).Some?
    ensures var checked := CheckedWorld(k, v, b).value;
      k.stateRoot(checked) == b.stateRoot && Supply(checked) + FeeBurn(ReplayWorld(k, v, b).value.1) == Supply(v.world)
  {
    hide HeaderFault, ProposerAllowed, VerifierSlashing, ReplayWorld, VerifyCheckins, Supply, FeeBurn, AllInserted, Rotated;
    var t := v.(slashing := VerifierSlashing(k, v, b));
    var (w, fees) := ReplayWorld(k, v, b).value;
    assert Concluded(k, t, b, w, fees).1 == Accepted;
  }

  // ---------------------------------------------------------------- which blocks are accepted

  /** What the other nodes and the producer compare: the verifier's start is the producer's, and so are the roots. */
  lemma AcceptedTokens(k: Kernel, p: NodeState, v: NodeState, now: nat, b: Block, isSync: bool, clock: nat)
    requires Agree(p, v) && CarriesBlock(k, p, now, b) && Applied(k, v, b, isSync, clock).1 == Accepted
    requires CheckedWorld(k, v, b).Some? ==> RootTells(k, b.height, CheckedWorld(k, v, b).value, ProduceWorld(k, p, now).world)
    ensures CheckedWorld(k, v, b).Some?
         && SameTokens(b.height, CheckedWorld(k, v, b).value, ProduceWorld(k, p, now).world)
    ensures v.world.(blockHeight := b.height, blockTimestamp := b.timestamp) == Start(p, now)
    ensures b.transactions == ProducerRun(k, p, now).included && b.height == p.latest.height + 1
  {
    hide CheckedWorld, ProducerBody, ProducerRun, IncludeCheckins, SameTokens, Applied;
    AcceptedChecks(k, v, b, isSync, clock);
  }

  /** A batch whose refused transactions lose tokens makes a block that no node on the producer's chain accepts. */
  lemma LossIsRefused(k: Kernel, p: NodeState, v: NodeState, now: nat, b: Block, isSync: bool, clock: nat)
    requires k.IndexLawful() && k.TokensLawful() && Sound(k, p) && Agree(p, v) && CarriesBlock(k, p, now, b)
    requires CheckedWorld(k, v, b).Some? ==> RootTells(k, b.height, CheckedWorld(k, v, b).value, ProduceWorld(k, p, now).world)
    requires LostTokens(k, p, now) > 0
    ensures Applied(k, v, b, isSync, clock).1 != Accepted
  {
    hide CheckedWorld, Applied, Booked, Supply, FeeBurn, ProduceWorld, SameTokens, Kernel.IndexLawful, Kernel.TokensLawful,
      Execute, Replay, ReplayWorld, LostTokens, RootTells, Batch;
    if Applied(k, v, b, isSync, clock).1 == Accepted {
      AcceptedTokens(k, p, v, now, b, isSync, clock);
      AcceptedChecks(k, v, b, isSync, clock);
      CheckedBooks(k, v, b);
      ReplayFees(k, Start(p, now), Start(p, now), Batch(p.mempool), 0, 0);
      ProductionMeetsSupplyCheck(k, p, now);
      ProductionBucket(k, p, now);
      SameTokensSameSupply(b.height, CheckedWorld(k, v, b).value, ProduceWorld(k, p, now).world);
    }
  }

  /** Before rewards are pooled production leaves the bucket alone. */
  lemma ProductionBucket(k: Kernel, s: NodeState, now: nat)
    requires k.TokensLawful() && Booked(s.world, s.latest.height + 1)
    ensures s.latest.height + 1 < Rewards.HEARTBEAT_V2_HEIGHT ==>
      ProduceWorld(k, s, now).world.ledger.bucket == s.world.ledger.bucket
  {
    hide Booked, Supply, FeeBurn, Kernel.TokensLawful, Execute, ProduceWorld, LostTokens, Batch;
    OtherFieldsDoNotMatter(Start(s, now), s.world);
    ExecutionBooks(k, Start(s, now), Batch(s.mempool), 0, s.latest.height + 1);
    ProductionMeetsSupplyCheck(k, s, now);
  }

  /** Exactly when the other nodes accept a produced block: in time, signed, and with no token lost by the transactions it had
    * to drop. */
  lemma AcceptedIff(k: Kernel, p: NodeState, v: NodeState, now: nat, elapsed: nat, b: Block, isSync: bool, clock: nat)
    requires k.Lawful() && Sound(k, p) && Agree(p, v) && MayProduce(k, p, elapsed) && CarriesBlock(k, p, now, b)
    requires OthersFailCleanly(k, Start(p, now), Batch(p.mempool), 0)
    requires CheckedWorld(k, v, b).Some? ==> RootTells(k, b.height, CheckedWorld(k, v, b).value, ProduceWorld(k, p, now).world)
    ensures Applied(k, v, b, isSync, clock).1 == Accepted
       <==> Timely(p, now, clock) && EnoughSigners(k, v.active, b, isSync) && LostTokens(k, p, now) == 0
  {
    hide Applied, MayProduce, EnoughSigners, Timely, Kernel.IndexLawful, Kernel.TokensLawful, Kernel.SignaturesLawful,
      CheckedWorld, ProduceWorld, RootTells, OthersFailCleanly, LostTokens, LeavesNoTrace, Batch, Agree, Sound, CarriesBlock;
    TracelessLosesNothing(k, p, now);
    if LostTokens(k, p, now) == 0 {
      ProducedBlockIsAccepted(k, p, v, now, elapsed, b, isSync, clock);
    } else {
      LossIsRefused(k, p, v, now, b, isSync, clock);
    }
  }

  /** One transaction is enough: a claim with nothing mature, while anything at all is unbonding, makes a block that no other
    * node accepts. */
  lemma IdleClaimIsRefused(k: Kernel, p: NodeState, v: NodeState, now: nat, b: Block, isSync: bool, clock: nat, tx: Tx)
    requires k.IndexLawful() && k.TokensLawful() && Sound(k, p) && Agree(p, v) && CarriesBlock(k, p, now, b)
    requires CheckedWorld(k, v, b).Some? ==> RootTells(k, b.height, CheckedWorld(k, v, b).value, ProduceWorld(k, p, now).world)
    requires p.mempool == [tx] && tx.body.StakeClaim? && k.Reaches(Start(p, now), tx)
    requires p.world.ledger.unbonding != []
    requires forall i :: 0 <= i < |p.world.ledger.unbonding| ==>
      !Staking.Mature(p.world.ledger.unbonding[i], tx.from, p.latest.height + 1)
    ensures Applied(k, v, b, isSync, clock).1 != Accepted
  {
    hide CheckedWorld, Applied, Sound, Agree, CarriesBlock, ProduceWorld, Kernel.IndexLawful, Kernel.TokensLawful, RootTells;
    IdleClaimLoses(k, Start(p, now), tx);
    assert Batch([tx]) == [tx];
    LossIsRefused(k, p, v, now, b, isSync, clock);
  }

  lemma IdleClaimLoses(k: Kernel, w: World, tx: Tx)
    requires tx.body.StakeClaim? && k.Reaches(w, tx) && w.ledger.unbonding != []
    requires forall i :: 0 <= i < |w.ledger.unbonding| ==> !Staking.Mature(w.ledger.unbonding[i], tx.from, w.blockHeight)
    ensures k.ApplyTx(w, tx, 0).1 == None && BatchLoss(k, w, [tx], 0) > 0
  {
    hide Staking.Claim, Staking.Mature, Accounts;
    var paid := Charged(w, tx.from, k.Fee(tx));
    Staking.ClaimFailsCleanlyIff(Books(paid), tx.from, w.blockHeight);
    Staking.QueueWeighs(w.ledger.unbonding);
  }
}
