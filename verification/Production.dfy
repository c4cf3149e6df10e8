/** What it means that a node produces a block: the block, the witnesses in it, and the node afterwards. */
module Production {
  import opened Common
  import opened ConsensusTypes
  import opened NodeTypes
  import opened Checkins
  import opened NodeSpec
  import opened Agreement
  import opened Verdicts
  import opened Acceptance
  import opened CheckinSafety
  import opened RewardEffects
  import Bookkeeping
  import Election
  import Rewards
  import Transactions

  // ---------------------------------------------------------------- witnesses

  /** The cache holds `w` for miner `m` in epoch `e`, and the miner has not checked in for that epoch yet. */
  predicate Waits(c: Cache, miners: map<Address, nat>, e: nat, m: Address, w: Witness) {
    e in c && m in c[e] && c[e][m] == w && m in miners && miners[m] < e
  }

  /** Exactly which witnesses are pending: those that wait in the current epoch, and since version 3.1 those of the epoch before, of
    * miners that have none waiting in the current one. */
  lemma PendingIff(c: Cache, epoch: nat, miners: map<Address, nat>, v31: bool, m: Address, w: Witness)
    ensures var pending := Pending(c, epoch, miners, v31);
      (m in pending && pending[m] == w) <==>
        || Waits(c, miners, epoch, m, w)
        || (v31 && epoch > 0 && Waits(c, miners, epoch - 1, m, w) && !(exists v :: Waits(c, miners, epoch, m, v)))
  {
    if epoch in c && m in c[epoch] && m in miners && miners[m] < epoch {
      assert Waits(c, miners, epoch, m, c[epoch][m]);
    }
  }

  lemma {:induction false} MinerOrderComplete(pending: map<Address, Witness>, m: Address)
    requires m in pending
    ensures pending[m] in InMinerOrder(pending)
    decreases |pending|
  {
    var least := LeastOf(pending.Keys);
    var rest := InMinerOrder(pending - {least});
    assert InMinerOrder(pending) == [pending[least]] + rest;
    if m != least {
      MinerOrderComplete(pending - {least}, m);
    }
  }

  lemma OrderIff(pending: map<Address, Witness>, w: Witness)
    requires forall m :: m in pending ==> pending[m].miner == m
    ensures w in InMinerOrder(pending) <==> w.miner in pending && pending[w.miner] == w
    ensures forall i, j :: 0 <= i < j < |InMinerOrder(pending)| ==> InMinerOrder(pending)[i].miner < InMinerOrder(pending)[j].miner
  {
    MinerOrderMembers(pending);
    if w.miner in pending && pending[w.miner] == w { MinerOrderComplete(pending, w.miner); }
    hide InMinerOrder;
  }

  /** A block includes exactly the witnesses pending after the settlement, by miner; they credit exactly their miners, with the
    * block's epoch. */
  lemma IncludedMeaning(k: Kernel, w: World, cache: Cache, height: nat, x: Witness, m: Address)
    requires height >= 280_500 && WellFiled(cache)
    ensures var own, settled := IncludeCheckins(k, w, cache, height), Settled(k, w, height).0;
      var pending := Pending(cache, height / 100, settled.miners, height >= 384_500);
      && (x in own.checkins <==> x.miner in pending && pending[x.miner] == x)
      && (forall i, j :: 0 <= i < j < |own.checkins| ==> own.checkins[i].miner < own.checkins[j].miner)
      && own.world == settled.(miners := own.world.miners) && own.world.miners.Keys == settled.miners.Keys
      && (m in settled.miners ==> own.world.miners[m] == if m in pending then height / 100 else settled.miners[m])
  {
    var settled := Settled(k, w, height).0;
    hide Settled;
    var pending := Pending(cache, height / 100, settled.miners, height >= 384_500);
    forall a | a in pending
      ensures pending[a].miner == a
    {
      PendingIsFresh(cache, height / 100, settled.miners, height >= 384_500, a);
    }
    var ws := InMinerOrder(pending);
    OrderIff(pending, x);
    MinerOrderMembers(pending);
    CreditMeaning(settled.miners, ws, height / 100);
    if m in pending { MinerOrderComplete(pending, m); }
    assert m in MinersOf(ws) <==> m in pending by {
      if m in pending {
        var i :| 0 <= i < |ws| && ws[i] == pending[m];
        assert ws[i].miner == m;
      }
    }
    hide Pending, InMinerOrder, CreditAll, Swept;
  }

  /** The settlement, in terms of the treasury: heartbeats are migrated once, at the height where witnesses begin, and boundaries
    * are settled every 100 blocks. */
  lemma SettlementMeaning(k: Kernel, w: World, height: nat)
    ensures var t := if height == 280_500 then Rewards.Migrated(Books(w)) else Books(w);
      Books(Settled(k, w, height).0) == if height % 100 == 0 then Rewards.EpochBoundary(t, height) else t
    ensures Books(SettledBeforeV3(k, w, height).0)
         == Rewards.ActivityUpdated(Rewards.EpochBoundary(Books(w), height), height)
  {
    hide Books, WithBooks, Rewards.Migrated, Rewards.EpochBoundary, Rewards.ActivityUpdated;
    Bookkeeping.BooksHold(w, Rewards.Migrated(Books(w)));
    BoundaryBooks(k, w, height);
    BoundaryBooks(k, k.MigrateMiners(w), height);
    var settled := k.EpochBoundary(w, height).0;
    Bookkeeping.BooksHold(settled, Rewards.ActivityUpdated(Books(settled), height));
  }

  lemma BoundaryBooks(k: Kernel, w: World, height: nat)
    ensures Books(k.EpochBoundary(w, height).0) == Rewards.EpochBoundary(Books(w), height)
  {
    hide Rewards.EpochBoundary;
    var settled := WithBooks(w, Rewards.EpochBoundary(Books(w), height));
    Bookkeeping.BooksHold(w, Rewards.EpochBoundary(Books(w), height));
    Transactions.SameAccounts(settled, k.EpochBoundary(w, height).0);
  }

  /** The world a verifier compares roots on: the replayed one, settled, with exactly the block's miners credited, and with the
    * slot counters it has recorded. */
  lemma CheckedMeaning(k: Kernel, s: NodeState, b: Block, m: Address)
    requires CheckedWorld(k, s, b).Some?
    ensures ReplayWorld(k, s, b).Some?
    ensures var w, counted := CheckedWorld(k, s, b).value, VerifierSlashing(k, s, b);
      var replayed := ReplayWorld(k, s, b).value.0;
      var settled := if b.height >= 280_500 then Settled(k, replayed, b.height).0 else SettledBeforeV3(k, replayed, b.height).0;
      && w == settled.(miners := w.miners, jailed := counted.jailed, missedSlots := counted.missedSlots,
                       assignedSlots := counted.assignedSlots, processed := counted.processed)
      && w.miners.Keys == settled.miners.Keys
      && (m in settled.miners ==>
            w.miners[m] == if exists i :: 0 <= i < |b.checkins| && b.checkins[i].miner == m then b.height / 100 else settled.miners[m])
  {
    hide ReplayWorld, VerifierSlashing, Settled, SettledBeforeV3, FirstFault, CreditAll;
    var replayed := ReplayWorld(k, s, b).value.0;
    CreditMeaning(Settled(k, replayed, b.height).0.miners, b.checkins, b.height / 100);
  }

  // ---------------------------------------------------------------- the block and the node

  /** A node may produce as the elected primary, or as the fallback once more than six seconds have passed. */
  lemma MayProduceIff(k: Kernel, s: NodeState, elapsed: nat)
    ensures elapsed > 6 ==> (MayProduce(k, s, elapsed) <==> Leads(k, s, s.self))
    ensures elapsed <= 6 ==>
      (MayProduce(k, s, elapsed) <==> Election.Proposer(s.active, k.vrfSeed(s.latest.hash, s.latest.height + 1)) == Some(s.self))
  {
    hide Election.Proposer, Election.Fallback;
  }

  /** The treasury once the rewards of a block are paid: to the active validators that are not offline, to miners, and to the
    * block's validator for its fees. */
  function RewardsPaid(t: Rewards.Treasury, s: NodeState, proposer: Address, fees: nat): Rewards.Treasury {
    var height := s.latest.height + 1;
    var t1 := Rewards.BlockReward(t, RewardedValidators(s.active, s.offline), height);
    Rewards.FeesDistributed(Rewards.MiningReward(t1, height), proposer, fees)
  }

  /** A producer executes its batch, pays the rewards and counts the slot. */
  lemma BodyMeaning(k: Kernel, s: NodeState, now: nat)
    ensures var run, w := Execute(k, Start(s, now), Batch(s.mempool), 0), ProducerBody(k, s, now).0;
      && Books(w) == RewardsPaid(Books(run.world), s, s.self, run.fees)
      && w == run.world.(ledger := w.ledger, miners := w.miners, stakes := w.stakes,
                         uptime := Tracked(run.world, s.active, s.self).uptime)
  {
    hide Execute, Rewarded, Batch, RewardedValidators, ExpectedBumped, Rewards.BlockReward, Rewards.MiningReward, Rewards.FeesDistributed;
    var run := Execute(k, Start(s, now), Batch(s.mempool), 0);
    var rewarded := Rewarded(k, run.world, RewardedValidators(s.active, s.offline), s.self, s.latest.height + 1, run.fees).0;
    RewardedMeaning(k, run.world, RewardedValidators(s.active, s.offline), s.self, s.latest.height + 1, run.fees);
    Transactions.SameAccounts(rewarded, ProducerBody(k, s, now).0);
    hide Accounts;
  }

  /** A verifier replays the block's transactions, and pays and counts alike. */
  lemma ReplayMeaning(k: Kernel, s: NodeState, b: Block)
    requires b.height == s.latest.height + 1
    ensures var replayed, end := Replay(k, Start(s, b.timestamp), b.transactions, 0), ReplayWorld(k, s, b);
      && (end.Some? <==> replayed.Some?)
      && (end.Some? ==>
            && end.value.1 == replayed.value.1
            && Books(end.value.0) == RewardsPaid(Books(replayed.value.0), s, b.validator, end.value.1)
            && end.value.0 == replayed.value.0.(ledger := end.value.0.ledger, miners := end.value.0.miners, stakes := end.value.0.stakes,
                                                uptime := Tracked(replayed.value.0, s.active, b.validator).uptime))
  {
    hide Replay, Rewarded, RewardedValidators, ExpectedBumped, Rewards.BlockReward, Rewards.MiningReward, Rewards.FeesDistributed;
    var replayed := Replay(k, Start(s, b.timestamp), b.transactions, 0);
    if replayed.Some? {
      var (w, fees) := replayed.value;
      var rewarded := Rewarded(k, w, RewardedValidators(s.active, s.offline), b.validator, b.height, fees).0;
      RewardedMeaning(k, w, RewardedValidators(s.active, s.offline), b.validator, b.height, fees);
      Transactions.SameAccounts(rewarded, ReplayWorld(k, s, b).value.0);
    }
    hide Accounts;
  }

  /** The block a node hands out: next in its chain, its own, with the root of the world it leads to, hashed and signed. */
  lemma ProducedMeaning(k: Kernel, s: NodeState, now: nat)
    ensures var b := ProducedBlock(k, s, now);
      && b.height == s.latest.height + 1 && b.prevHash == s.latest.hash && b.timestamp == now && b.validator == s.self
      && b.hash == k.blockHash(b.HashedPart()) && b.signatures == [(s.self, k.sign(s.self, b.hash))]
      && b.transactions == Execute(k, Start(s, now), Batch(s.mempool), 0).included
      && b.stateRoot == k.stateRoot(ProduceWorld(k, s, now).world)
      && b.events == Execute(k, Start(s, now), Batch(s.mempool), 0).events + ProducerBody(k, s, now).1
                     + IncludeCheckins(k, ProducerBody(k, s, now).0, s.cache, b.height).events
      && b.checkins == IncludeCheckins(k, ProducerBody(k, s, now).0, s.cache, b.height).checkins
      && (b.height < 280_500 ==> b.checkins == [])
  {
    hide Execute, Batch, ProducerBody, Settled, SettledBeforeV3, Pending, InMinerOrder, CreditAll, Swept;
  }

  /** What producing makes of a node: the block on top, the transactions it took gone from the mempool, and between epochs the
    * world whose root the block carries. */
  lemma ProducingChanges(k: Kernel, s: NodeState, now: nat)
    ensures var t, b, made := AfterProducing(k, s, now), ProducedBlock(k, s, now), ProduceWorld(k, s, now).world;
      && t.latest == b && t.store == s.store[b.height := b] && t.snapshot == Some(k.encode(made))
      && t.pendingVotes == map[] && t.mempool == Excess(s.mempool) && t.txCount == s.txCount + |b.transactions|
      && t.self == s.self && t.genesisHash == s.genesisHash && t.lastSnapshotHeight == s.lastSnapshotHeight
      && (b.height % 100 != 0 ==>
            && t.world == made && t.active == s.active && t.epoch == s.epoch && t.offline == s.offline
            && t.slashing == ProducerSlashing(k, s))
      && (b.height % 100 == 0 && b.height > 0 ==> t.epoch == s.epoch + 1)
  {
    hide ProduceWorld, ProducedBlock, ProducerSlashing, Rotated, Excess;
    var p, b := ProduceWorld(k, s, now), ProducedBlock(k, s, now);
    RotationKeeps(Adopted(k, s.(mempool := Excess(s.mempool), slashing := ProducerSlashing(k, s), cache := p.cache), b, p.world),
                  b.height);
  }

  /** What the cache keeps: every witness of the previous epoch and later ones. */
  lemma CacheAfterProducing(k: Kernel, s: NodeState, now: nat, e: nat)
    ensures var height := s.latest.height + 1;
      At(AfterProducing(k, s, now).cache, e)
      == if height >= 280_500 && e + 1 < height / 100 then map[] else At(s.cache, e)
  {
    hide ProducedBlock, ProducerSlashing, Rotated, Excess, ProducerBody, ProducerRun, Settled, SettledBeforeV3, Pending, InMinerOrder, CreditAll;
    var p, b := ProduceWorld(k, s, now), ProducedBlock(k, s, now);
    RotationKeeps(Adopted(k, s.(mempool := Excess(s.mempool), slashing := ProducerSlashing(k, s), cache := p.cache), b, p.world),
                  b.height);
  }
}
