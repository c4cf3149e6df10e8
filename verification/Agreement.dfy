/** When a block that `produce_block` builds passes `apply_remote_block`, and that both nodes then end in the same state. */
module Agreement {
  import opened Common
  import opened ConsensusTypes
  import opened NodeTypes
  import opened Checkins
  import opened NodeSpec
  import opened Bookkeeping
  import opened Batches
  import Election
  import Ranking
  import Rewards
  import Staking
  import Voting

  // ---------------------------------------------------------------- what two nodes share

  ghost predicate SameChain(a: map<nat, Block>, b: map<nat, Block>, height: nat) {
    forall h :: 0 <= h <= height ==> (h in a <==> h in b) && (h in a ==> a[h].hash == b[h].hash)
  }

  /** Equal in everything consensus depends on; signatures collected on blocks may differ. */
  ghost predicate Agree(p: NodeState, v: NodeState) {
    && p.world == v.world && p.slashing == v.slashing && p.offline == v.offline && p.active == v.active
    && p.latest.height == v.latest.height && p.latest.hash == v.latest.hash && p.latest.timestamp == v.latest.timestamp
    && SameChain(p.store, v.store, p.latest.height)
  }

  /** The reference block of a cached witness is on this node's chain, and its signature holds. */
  ghost predicate Grounded(k: Kernel, s: NodeState, w: Witness) {
    && w.epoch * MINER_EPOCH_LENGTH <= w.refHeight <= s.latest.height
    && w.refHeight in s.store && s.store[w.refHeight].hash == w.refHash
    && k.checkinVerifies(w.miner, w.epoch, w.refHash, w.signature)
  }

  ghost predicate AllGrounded(k: Kernel, s: NodeState, c: Cache) {
    WellFiled(c) && forall e, m :: e in c && m in c[e] ==> Grounded(k, s, c[e][m])
  }

  /** The tip is stored, and the cache is grounded. */
  ghost predicate Rooted(k: Kernel, s: NodeState) {
    && s.latest.height in s.store && s.store[s.latest.height].hash == s.latest.hash
    && AllGrounded(k, s, s.cache)
  }

  /** What every node keeps: its chain and cache are rooted, and its books are in order for the next block. */
  ghost predicate Sound(k: Kernel, s: NodeState) {
    Rooted(k, s) && Booked(s.world, s.latest.height + 1)
  }

  // ---------------------------------------------------------------- transactions and supply

  /** The world in which the node's next block executes its batch. */
  function Start(s: NodeState, now: nat): World {
    s.world.(blockHeight := s.latest.height + 1, blockTimestamp := now)
  }

  /** The refused transactions of the node's next block leave no trace. */
  predicate LeavesNoTrace(k: Kernel, s: NodeState, now: nat) {
    Traceless(k, Start(s, now), Batch(s.mempool), 0)
  }

  /** Tokens its refused transactions take out of circulation. */
  function LostTokens(k: Kernel, s: NodeState, now: nat): nat {
    BatchLoss(k, Start(s, now), Batch(s.mempool), 0)
  }

  lemma OwnCheckinsBooks(k: Kernel, w: World, cache: Cache, height: nat)
    requires Booked(w, height)
    ensures var own := IncludeCheckins(k, w, cache, height).world;
      Supply(own) == Supply(w) && KeepsStakes(w, own, height) && Booked(own, height + 1)
  {
    hide Booked, Supply;
    SettledBooks(k, w, height);
    if height >= CHECKIN_V3_HEIGHT {
      var epoch, w1 := MinerEpoch(height), Settled(k, w, height).0;
      var ws := InMinerOrder(Pending(cache, epoch, w1.miners, height >= CHECKIN_V3_1_HEIGHT));
      CreditsKeepKeys(w1.miners, ws, epoch);
      CreditedBooks(w1, CreditAll(w1.miners, ws, epoch));
    }
  }

  /** A produced block takes out of circulation exactly the undistributed part of its fees and what its refused
    * transactions lose; it leaves the books in order, and the stakes as its transactions left them. */
  lemma ProductionMeetsSupplyCheck(k: Kernel, s: NodeState, now: nat)
    requires k.TokensLawful() && Booked(s.world, s.latest.height + 1)
    ensures var run, made := ProducerRun(k, s, now), ProduceWorld(k, s, now).world;
      && Supply(made) + FeeBurn(run.fees) + LostTokens(k, s, now) == Supply(s.world)
      && KeepsStakes(run.world, made, s.latest.height + 1) && Booked(made, s.latest.height + 2)
  {
    hide Booked, Supply, FeeBurn, Kernel.TokensLawful, IncludeCheckins, Rewarded, Execute, BatchLoss;
    var height, run := s.latest.height + 1, ProducerRun(k, s, now);
    var start := Start(s, now);
    var rewarded := Rewarded(k, run.world, RewardedValidators(s.active, s.offline), s.self, height, run.fees).0;
    var body := ProducerBody(k, s, now).0;
    OtherFieldsDoNotMatter(start, s.world);
    ExecutionSupply(k, start, Batch(s.mempool), 0);
    ExecutionBooks(k, start, Batch(s.mempool), 0, height);
    RewardedBooks(k, run.world, RewardedValidators(s.active, s.offline), s.self, height, run.fees);
    OtherFieldsDoNotMatter(rewarded, body);
    OwnCheckinsBooks(k, body, s.cache, height);
    OtherFieldsDoNotMatter(IncludeCheckins(k, body, s.cache, height).world, ProduceWorld(k, s, now).world);
    FeeBurnIsPart(run.fees);
  }

  lemma FeeBurnIsPart(fees: nat)
    ensures FeeBurn(fees) <= fees
  {
  }

  // ---------------------------------------------------------------- check-ins

  /** Witnesses that pass the checks one by one pass them as a sorted list. */
  lemma {:induction false} OrderedPass(k: Kernel, miners: map<Address, nat>, store: map<nat, Block>, height: nat,
                                       pending: map<Address, Witness>, seen: set<Address>)
    requires forall m :: m in pending ==>
      pending[m].miner == m && m !in seen && WitnessFault(k, miners, store, height, pending[m]) == None
    ensures FirstFault(k, miners, store, height, InMinerOrder(pending), seen) == None
    decreases |pending|
  {
    if pending != map[] {
      var m := LeastOf(pending.Keys);
      OrderedPass(k, miners, store, height, pending - {m}, seen + {m});
      assert InMinerOrder(pending)[1..] == InMinerOrder(pending - {m});
    }
  }

  /** The producer's filter implies every check a verifier on the same chain makes. */
  lemma PendingPasses(k: Kernel, p: NodeState, v: NodeState, miners: map<Address, nat>, m: Address)
    requires Sound(k, p) && SameChain(p.store, v.store, p.latest.height)
    requires m in Pending(p.cache, MinerEpoch(p.latest.height + 1), miners, p.latest.height + 1 >= CHECKIN_V3_1_HEIGHT)
    ensures var w := Pending(p.cache, MinerEpoch(p.latest.height + 1), miners, p.latest.height + 1 >= CHECKIN_V3_1_HEIGHT)[m];
      w.miner == m && WitnessFault(k, miners, v.store, p.latest.height + 1, w) == None
  {
    var height := p.latest.height + 1;
    PendingIsFresh(p.cache, MinerEpoch(height), miners, height >= CHECKIN_V3_1_HEIGHT, m);
    var w := Pending(p.cache, MinerEpoch(height), miners, height >= CHECKIN_V3_1_HEIGHT)[m];
    assert Grounded(k, p, w);
    assert w.refHeight in v.store && v.store[w.refHeight].hash == w.refHash;
  }

  // ---------------------------------------------------------------- header, proposer, slots

  lemma {:induction false} ProposerIsActive(active: seq<ActiveValidator>, seed: nat)
    ensures Election.Proposer(active, seed).Some? <==> active != []
    ensures Election.Proposer(active, seed).Some? ==> IsActive(active, Election.Proposer(active, seed).value)
  {
  }

  lemma {:induction false} FirstOtherIsListed(vs: seq<ActiveValidator>, primary: Address)
    ensures Election.FirstOther(vs, primary).Some? ==>
      Election.FirstOther(vs, primary).value != primary
      && exists v :: v in vs && v.address == Election.FirstOther(vs, primary).value
  {
    if vs != [] {
      if vs[0].address != primary {
        assert vs[0] in vs;
      } else {
        FirstOtherIsListed(vs[1..], primary);
      }
    }
  }

  lemma FallbackIsActive(active: seq<ActiveValidator>, seed: nat)
    ensures Election.Fallback(active, seed).Some? ==>
      active != [] && IsActive(active, Election.Fallback(active, seed).value)
  {
    if |active| >= 2 {
      var sorted, primary := Ranking.Sort(active), Election.Proposer(active, seed).value;
      FirstOtherIsListed(sorted, primary);
      Ranking.SameMembers(active, sorted);
    }
  }

  /** Whoever may produce is an active validator, and its own signature counts. */
  lemma ProducerSigns(k: Kernel, p: NodeState, elapsed: nat, b: Block)
    requires k.SignaturesLawful() && MayProduce(k, p, elapsed)
    requires (p.self, k.sign(p.self, b.hash)) in b.signatures
    ensures p.active != [] && p.self in ValidSigners(k, p.active, b)
  {
    ProposerIsActive(p.active, SeedOf(k, p));
    FallbackIsActive(p.active, SeedOf(k, p));
    var i :| 0 <= i < |b.signatures| && b.signatures[i] == (p.self, k.sign(p.self, b.hash));
  }

  /** A block of this node, with whatever further signatures were collected on it. */
  ghost predicate CarriesBlock(k: Kernel, p: NodeState, now: nat, b: Block) {
    && b == ProducedBlock(k, p, now).(signatures := b.signatures)
    && (p.self, k.sign(p.self, b.hash)) in b.signatures
  }

  /** Timestamps in order, and not more than 30 seconds ahead of the verifier's clock. */
  predicate Timely(p: NodeState, now: nat, clock: nat) {
    p.latest.timestamp <= now <= clock + 30
  }

  lemma HeaderVerdict(k: Kernel, p: NodeState, v: NodeState, now: nat, b: Block, isSync: bool, clock: nat)
    requires Agree(p, v) && CarriesBlock(k, p, now, b)
    ensures HeaderFault(k, v, b, isSync, clock) == None <==> Timely(p, now, clock) && EnoughSigners(k, v.active, b, isSync)
  {
    hide IncludeCheckins, ProducerBody, EnoughSigners, Rotated;
    IncludedIsShort(k, Start(p, now), Batch(p.mempool), 0);
    hide Execute;
    assert |b.transactions| <= MAX_BLOCK_TXS;
    assert b.HashedPart() == ProducedBlock(k, p, now).(hash := 0, signatures := []).HashedPart();
  }

  lemma SlotsAgree(k: Kernel, p: NodeState, v: NodeState, now: nat, elapsed: nat, b: Block)
    requires Agree(p, v) && MayProduce(k, p, elapsed) && CarriesBlock(k, p, now, b)
    ensures ProposerAllowed(k, v, b) && VerifierSlashing(k, v, b) == ProducerSlashing(k, p)
  {
    ProposerIsActive(p.active, SeedOf(k, p));
    FallbackIsActive(p.active, SeedOf(k, p));
  }

  // ---------------------------------------------------------------- the body

  lemma ReplayAgrees(k: Kernel, p: NodeState, v: NodeState, now: nat, b: Block)
    requires k.IndexLawful() && LeavesNoTrace(k, p, now)
    requires Agree(p, v) && CarriesBlock(k, p, now, b)
    ensures ReplayWorld(k, v, b) == Some((ProducerBody(k, p, now).0, ProducerRun(k, p, now).fees))
  {
    hide Kernel.BlockReward, Kernel.MiningReward, Kernel.DistributeFees, Kernel.IndexLawful, Traceless,
      Execute, Replay;
    ReplayRepeatsExecution(k, Start(p, now), Batch(p.mempool), 0, 0);
  }

  /** The verifier's check-in processing accepts the producer's witnesses and arrives at the same world. */
  lemma CheckinsAgree(k: Kernel, p: NodeState, v: NodeState, w: World)
    requires Sound(k, p) && SameChain(p.store, v.store, p.latest.height)
    ensures var own := IncludeCheckins(k, w, p.cache, p.latest.height + 1);
      VerifyCheckins(k, w, v.store, p.latest.height + 1, own.checkins) == Ok(own.world)
  {
    hide Kernel.MigrateMiners, Kernel.EpochBoundary, Kernel.MinerActivity;
    var height := p.latest.height + 1;
    var miners := Settled(k, w, height).0.miners;
    var pending := Pending(p.cache, MinerEpoch(height), miners, height >= CHECKIN_V3_1_HEIGHT);
    forall m | m in pending
      ensures pending[m].miner == m && WitnessFault(k, miners, v.store, height, pending[m]) == None
    {
      PendingPasses(k, p, v, miners, m);
    }
    OrderedPass(k, miners, v.store, height, pending, {});
  }

  /** Rotation reads only what agreeing nodes share. */
  lemma RotationAgrees(p: NodeState, v: NodeState, height: nat)
    requires Agree(p, v)
    ensures Agree(Rotated(p, height), Rotated(v, height))
  {
    hide Books, WithBooks;
  }

  lemma AdoptionAgrees(k: Kernel, p: NodeState, v: NodeState, pb: Block, vb: Block, world: World)
    requires Agree(p, v) && pb.height == p.latest.height + 1
    requires pb.height == vb.height && pb.hash == vb.hash && pb.timestamp == vb.timestamp
    ensures Agree(Adopted(k, p, pb, world), Adopted(k, v, vb, world))
  {
  }

  /** Producer/verifier agreement. If its refused transactions leave no trace, the only ways to refuse a produced block are
    * clocks and missing signatures. */
  lemma ProducedBlockIsAccepted(k: Kernel, p: NodeState, v: NodeState, now: nat, elapsed: nat, b: Block, isSync: bool, clock: nat)
    requires k.Lawful() && Sound(k, p) && Agree(p, v) && LeavesNoTrace(k, p, now)
    requires MayProduce(k, p, elapsed) && CarriesBlock(k, p, now, b)
    ensures Applied(k, v, b, isSync, clock).1 == Accepted
       <==> Timely(p, now, clock) && EnoughSigners(k, v.active, b, isSync)
    ensures Applied(k, v, b, isSync, clock).1 == Accepted ==>
      Agree(AfterProducing(k, p, now), Applied(k, v, b, isSync, clock).0)
  {
    hide Kernel.IndexLawful, Kernel.TokensLawful, Kernel.SignaturesLawful, LeavesNoTrace,
      Concluded, HeaderFault, ProposerAllowed, VerifierSlashing, ReplayWorld, ProduceWorld, ProducerBody, ProducerRun,
      AfterProducing, Rotated, Adopted, EnoughSigners, Agree, Sound, CarriesBlock, MayProduce;
    HeaderVerdict(k, p, v, now, b, isSync, clock);
    if HeaderFault(k, v, b, isSync, clock) == None {
      var s := v.(slashing := ProducerSlashing(k, p));
      SlotsAgree(k, p, v, now, elapsed, b);
      ReplayAgrees(k, p, v, now, b);
      TracelessLosesNothing(k, p, now);
      BodyConcludes(k, p, v, now, b, s);
      BothEndsAgree(k, p, v, now, b, CacheAfter(s, b));
    }
  }

  lemma TracelessLosesNothing(k: Kernel, s: NodeState, now: nat)
    requires k.TokensLawful() && Sound(k, s)
    ensures LeavesNoTrace(k, s, now)
       <==> OthersFailCleanly(k, Start(s, now), Batch(s.mempool), 0) && LostTokens(k, s, now) == 0
  {
    hide Supply, Books, Rewards.Booked, Staking.Backed, Traceless, OthersFailCleanly, BatchLoss;
    OtherFieldsDoNotMatter(Start(s, now), s.world);
    TracelessIff(k, Start(s, now), Batch(s.mempool), 0);
  }

  function CacheAfter(v: NodeState, b: Block): Cache {
    if b.height >= CHECKIN_V3_HEIGHT then AllInserted(v.cache, b.checkins) else v.cache
  }

  lemma ConcludedAccepts(k: Kernel, s: NodeState, b: Block, w: World, fees: nat, own: World, world: World)
    requires VerifyCheckins(k, w, s.store, b.height, b.checkins) == Ok(own)
    requires world == WithSlashing(own, s.slashing) && b.stateRoot == k.stateRoot(world)
    requires Supply(world) + FeeBurn(fees) == Supply(s.world)
    ensures Concluded(k, s, b, w, fees)
         == (Rotated(Adopted(k, s.(cache := CacheAfter(s, b)), b, world), b.height), Accepted)
  {
  }

  lemma BothEndsAgree(k: Kernel, p: NodeState, v: NodeState, now: nat, b: Block, cache: Cache)
    requires Agree(p, v) && CarriesBlock(k, p, now, b)
    ensures var s := v.(slashing := ProducerSlashing(k, p), cache := cache);
      Agree(AfterProducing(k, p, now), Rotated(Adopted(k, s, b, ProduceWorld(k, p, now).world), b.height))
  {
    var made, pb := ProduceWorld(k, p, now), ProducedBlock(k, p, now);
    var p1 := p.(mempool := Excess(p.mempool), slashing := ProducerSlashing(k, p), cache := made.cache);
    var v1 := v.(slashing := ProducerSlashing(k, p), cache := cache);
    AdoptionAgrees(k, p1, v1, pb, b, made.world);
    RotationAgrees(Adopted(k, p1, pb, made.world), Adopted(k, v1, b, made.world), b.height);
  }

  lemma BodyConcludes(k: Kernel, p: NodeState, v: NodeState, now: nat, b: Block, s: NodeState)
    requires k.TokensLawful() && Sound(k, p) && Agree(p, v) && CarriesBlock(k, p, now, b) && LostTokens(k, p, now) == 0
    requires s == v.(slashing := ProducerSlashing(k, p))
    ensures Concluded(k, s, b, ProducerBody(k, p, now).0, ProducerRun(k, p, now).fees)
         == (Rotated(Adopted(k, s.(cache := CacheAfter(s, b)), b, ProduceWorld(k, p, now).world), b.height), Accepted)
  {
    hide Booked, Supply, FeeBurn, Kernel.TokensLawful, IncludeCheckins, ProducerRun, ProducerBody, Concluded, VerifyCheckins,
      Rotated, AllGrounded, CacheAfter, KeepsStakes, LostTokens;
    var body, fees := ProducerBody(k, p, now).0, ProducerRun(k, p, now).fees;
    var own := IncludeCheckins(k, body, p.cache, p.latest.height + 1);
    ProductionMeetsSupplyCheck(k, p, now);
    CheckinsAgree(k, p, v, body);
    ConcludedAccepts(k, s, b, body, fees, own.world, ProduceWorld(k, p, now).world);
  }

  /** Below seven validators, or while syncing, a timely produced block that leaves no trace is always accepted. */
  lemma SmallOrSyncingNetworkAccepts(k: Kernel, p: NodeState, v: NodeState, now: nat, elapsed: nat, b: Block, isSync: bool, clock: nat)
    requires k.Lawful() && Sound(k, p) && Agree(p, v) && LeavesNoTrace(k, p, now)
    requires MayProduce(k, p, elapsed) && CarriesBlock(k, p, now, b) && Timely(p, now, clock)
    requires |v.active| < 7 || isSync
    ensures Applied(k, v, b, isSync, clock).1 == Accepted
  {
    ProducerSigns(k, p, elapsed, b);
    ProducedBlockIsAccepted(k, p, v, now, elapsed, b, isSync, clock);
    assert p.self in ValidSigners(k, v.active, b);
  }

  /** From seven validators on, a block straight from its producer is refused by gossip: one signature is too few. */
  lemma LargeNetworkGossipRefuses(k: Kernel, p: NodeState, v: NodeState, now: nat, clock: nat)
    requires |v.active| >= 7
    ensures Applied(k, v, ProducedBlock(k, p, now), false, clock).1 != Accepted
  {
    hide ProduceWorld, Kernel.Dispatched;
    var b := ProducedBlock(k, p, now);
    assert b.signatures == [(p.self, k.sign(p.self, b.hash))];
    hide ProducedBlock, Concluded, ReplayWorld, VerifierSlashing, ProposerAllowed;
    assert ValidSigners(k, v.active, b) <= {p.self};
    Voting.Subset(ValidSigners(k, v.active, b), {p.self});
    assert !EnoughSigners(k, v.active, b, false);
  }
}
