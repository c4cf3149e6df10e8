/** The node object: producing, applying and voting, as updates of its fields. */
module Node {
  import opened Common
  import opened ConsensusTypes
  import opened NodeTypes
  import opened NodeSpec
  import opened Bookkeeping
  import opened Agreement
  import Checkins
  import Election
  import Rewards
  import Slashing
  import ValidatorSet

  class ChainInner {
    const k: Kernel
    const self: Address
    const genesisHash: Hash
    const slashing: Slashing.SlashingState
    const validators: ValidatorSet.ValidatorSet
    const checkins: Checkins.CheckinCache
    var world: World
    var store: map<nat, Block>
    var snapshot: Option<Bytes>
    var mempool: seq<Tx>
    var latest: Block
    var pendingVotes: map<Address, Signature>
    var offline: set<Address>
    var savedOffline: Option<set<Address>>
    var lastSnapshotHeight: nat
    var txCount: nat

    ghost predicate Valid()
      reads this, validators, checkins
    {
      validators.config == COLD_START && Checkins.WellFiled(checkins.entries)
    }

    function Value(): NodeState
      reads this, slashing, validators, checkins
    {
      NodeState(self, genesisHash, world, store, snapshot, mempool, latest, validators.active, validators.epoch,
                slashing.Value(), pendingVotes, offline, savedOffline, checkins.entries, lastSnapshotHeight, txCount)
    }

    /** A node at genesis: the active set comes from the initial stakes, nobody is jailed, nothing is cached. */
    constructor (k: Kernel, crypto: Slashing.Crypto, self: Address, genesis: Block, world: World)
      requires genesis.height == 0 && Booked(world, 1)
      ensures Valid() && fresh(slashing) && fresh(validators) && fresh(checkins)
      ensures this.k == k && Value().active == ValidatorSet.Inputs(world.stakes, [], None, 0, COLD_START).Active()
      ensures Value().world == world && Value().latest == genesis && Sound(k, Value())
    {
      this.k, this.self, this.genesisHash := k, self, genesis.hash;
      slashing := new Slashing.SlashingState(crypto);
      validators := new ValidatorSet.ValidatorSet();
      checkins := new Checkins.CheckinCache();
      this.world, store, snapshot, mempool := world, map[0 := genesis], Some(k.encode(world)), [];
      latest, pendingVotes, offline, savedOffline := genesis, map[], {}, None;
      lastSnapshotHeight, txCount := 0, |genesis.transactions|;
      new;
      validators.RecalculateActive(world.stakes, [], None, 0);
    }

    // -------------------------------------------------------------- shared steps

    method TrackUptime(w: World, proposer: Address) returns (w': World)
      ensures w' == Tracked(w, validators.active, proposer)
    {
      var u := UptimeOf(w.uptime, proposer);
      var uptime: map<Address, Uptime> := w.uptime[proposer := Uptime(u.produced + 1, u.signed + 1, u.expected + 1)];
      ghost var start := uptime;
      for i := 0 to |validators.active|
        invariant ExpectedBumped(start, validators.active, proposer) == ExpectedBumped(uptime, validators.active[i..], proposer)
      {
        var a := validators.active[i].address;
        if a != proposer {
          uptime := uptime[a := UptimeOf(uptime, a).(expected := UptimeOf(uptime, a).expected + 1)];
        }
      }
      return w.(uptime := uptime);
    }

    method OnlineValidators() returns (r: seq<(Address, nat)>)
      ensures r == RewardedValidators(validators.active, offline)
    {
      hide RewardedValidators;
      r := [];
      var active := validators.active;
      assert active[0..] == active && r + RewardedValidators(active, offline) == RewardedValidators(active, offline);
      for i := 0 to |active|
        invariant RewardedValidators(active, offline) == r + RewardedValidators(active[i..], offline)
      {
        OnlineStep(active, offline, i, r);
        if active[i].address !in offline {
          r := r + [(active[i].address, active[i].weight)];
        }
      }
      NobodyOnline(offline, r);
      assert active[|active|..] == [];
    }

    method SyncSlashingToWorld()
      modifies this`world
      ensures world == WithSlashing(old(world), slashing.Value())
    {
      world := world.(jailed := slashing.jailed, missedSlots := slashing.missedSlots,
                      assignedSlots := slashing.assignedSlots, processed := slashing.processed);
    }

    /** The updates of one epoch rotation, field by field. */
    method Rotate(height: nat)
      requires Valid()
      modifies this`world, this`offline, this`savedOffline, slashing, validators
      ensures Valid() && validators.epoch == old(validators.epoch) + 1
      ensures offline == old(slashing.Value()).Offline() && savedOffline == Some(offline)
      ensures var freed := old(slashing.Value()).Unjailed(height);
        && slashing.Value() == freed.CountersReset()
        && validators.active
           == ValidatorSet.Inputs(old(world).stakes, old(world).reputation, Some(freed), height, COLD_START).Active()
      ensures world == WithSlashing(old(world).(uptime := map[]), slashing.Value())
    {
      offline := slashing.ProcessDowntimePenalties();
      savedOffline := Some(offline);
      var _ := slashing.UnjailExpired(height);
      validators.RecalculateActive(world.stakes, world.reputation, Some(slashing.Value()), height);
      slashing.ResetEpochCounters();
      world := world.(uptime := map[]);
      SyncSlashingToWorld();
    }

    method RotateEpoch(height: nat)
      requires Valid()
      modifies this`world, this`offline, this`savedOffline, slashing, validators
      ensures Valid() && Value() == Rotated(old(Value()), height)
    {
      hide ValidatorSet.Inputs.Active, Slashing.State.Offline, Slashing.State.CountersReset, Slashing.State.Unjailed;
      if IsEpochBoundary(height) {
        Rotate(height);
      }
    }

    /** Makes a block that leads to the current world the latest one. */
    method Adopt(b: Block)
      modifies this`store, this`snapshot, this`latest, this`pendingVotes, this`txCount
      ensures Value() == Adopted(k, old(Value()), b, world)
    {
      store := store[b.height := b];
      snapshot := Some(k.encode(world));
      pendingVotes := map[];
      txCount := txCount + |b.transactions|;
      latest := b;
    }

    // -------------------------------------------------------------- producing

    /** Who leads the next height, and whether this node does, as primary or as fallback. */
    method Leadership(elapsed: nat) returns (primary: Option<Address>, mine: bool, isFallback: bool)
      ensures primary == Election.Proposer(validators.active, SeedOf(k, Value()))
      ensures mine == MayProduce(k, Value(), elapsed)
      ensures isFallback == (mine && !IsPrimary(k, Value()))
    {
      var seed := k.vrfSeed(latest.hash, latest.height + 1);
      primary := Election.ElectProposer(validators.active, seed);
      if primary == Some(self) {
        return primary, true, false;
      }
      if elapsed <= BLOCK_TIME_SECS * 2 {
        return primary, false, false;
      }
      var fallback := Election.ElectFallbackProposer(validators.active, seed);
      mine := fallback == Some(self);
      isFallback := mine;
    }

    /** Applies the batch; failing transactions are dropped. */
    method ExecuteBatch(batch: seq<Tx>) returns (included: seq<Tx>, fees: nat, events: seq<BlockEvent>)
      modifies this`world
      ensures Execution(world, fees, included, events) == Execute(k, old(world), batch, 0)
    {
      hide Execute;
      included, fees, events := [], 0, [];
      ghost var all := Execute(k, world, batch, 0);
      assert batch[0..] == batch;
      for i := 0 to |batch|
        invariant all == Continued(included, fees, events, Execute(k, world, batch[i..], i))
      {
        ExecuteFirst(k, world, batch[i..], i);
        assert batch[i..][1..] == batch[i + 1..];
        var (next, receipt) := k.ApplyTx(world, batch[i], i);
        ghost var rest := Execute(k, next, batch[i + 1..], i + 1);
        world := next;
        if receipt.Some? {
          ContinuedOnce(included, fees, events, batch[i], receipt.value, rest);
          fees := fees + receipt.value.fee;
          events := events + receipt.value.events;
          included := included + [batch[i]];
        }
      }
      ExecuteNone(k, world, |batch|);
    }

    /** Witnesses of a bucket, sorted by miner. */
    method SortByMiner(pending: map<Address, Witness>) returns (ws: seq<Witness>)
      ensures ws == InMinerOrder(pending)
    {
      ws := [];
      var rest := pending;
      while rest != map[]
        invariant InMinerOrder(pending) == ws + InMinerOrder(rest)
        decreases |rest|
      {
        var m := FindLeast(rest.Keys);
        ws := ws + [rest[m]];
        rest := rest - {m};
      }
    }

    method CreditMiners(miners: map<Address, nat>, ws: seq<Witness>, epoch: nat) returns (r: map<Address, nat>)
      ensures r == CreditAll(miners, ws, epoch)
    {
      r := miners;
      for i := 0 to |ws|
        invariant CreditAll(miners, ws, epoch) == CreditAll(r, ws[i..], epoch)
      {
        if ws[i].miner in r {
          r := r[ws[i].miner := epoch];
        }
      }
    }

    /** Settlement, pending witnesses, credits, and garbage collection of a block of ours. */
    method IncludeWitnesses(height: nat) returns (ws: seq<Witness>, events: seq<BlockEvent>)
      requires Valid()
      modifies this`world, checkins
      ensures Valid()
      ensures OwnCheckins(world, ws, events, checkins.entries)
           == IncludeCheckins(k, old(world), old(checkins.entries), height)
    {
      hide Kernel.MigrateMiners, Kernel.EpochBoundary, Kernel.MinerActivity;
      if height >= CHECKIN_V3_HEIGHT {
        events := [];
        if height == CHECKIN_V3_HEIGHT {
          world := k.MigrateMiners(world);
        }
        if IsMinerEpochBoundary(height) {
          var (settled, settlement) := k.EpochBoundary(world, height);
          world, events := settled, settlement;
        }
        var epoch := MinerEpoch(height);
        var pending := checkins.GetPending(epoch, world.miners, height >= CHECKIN_V3_1_HEIGHT);
        ws := SortByMiner(pending);
        var miners := CreditMiners(world.miners, ws, epoch);
        world := world.(miners := miners);
        checkins.Gc(epoch);
      } else {
        var (settled, settlement) := k.EpochBoundary(world, height);
        world, events, ws := k.MinerActivity(settled, height), settlement, [];
      }
    }

    /** Transactions, rewards and uptime of a block of ours. */
    method ProduceBody(now: nat) returns (included: seq<Tx>, txEvents: seq<BlockEvent>, events: seq<BlockEvent>)
      modifies this`world, this`mempool
      ensures var s := old(Value());
        && Value() == s.(world := ProducerBody(k, s, now).0, mempool := Excess(s.mempool))
        && events == ProducerBody(k, s, now).1
        && included == ProducerRun(k, s, now).included && txEvents == ProducerRun(k, s, now).events
    {
      hide Kernel.BlockReward, Kernel.MiningReward, Kernel.DistributeFees, Execute, InsertTx, SortTxs;
      var height := latest.height + 1;
      world := world.(blockHeight := height, blockTimestamp := now);
      var pending := SortTxs(mempool);
      mempool := [];
      if |pending| > MAX_BLOCK_TXS {
        mempool := pending[MAX_BLOCK_TXS..];
        pending := pending[..MAX_BLOCK_TXS];
      }
      var fees;
      included, fees, txEvents := ExecuteBatch(pending);
      var online := OnlineValidators();
      var (w1, e1) := k.BlockReward(world, online, height);
      var (w2, e2) := k.MiningReward(w1, height);
      var (w3, e3) := k.DistributeFees(w2, self, fees);
      world := TrackUptime(w3, self);
      events := e1 + e2 + e3;
    }

    /** Everything a block of ours does to the world; the witnesses it carries are taken from the cache. */
    method ProduceWorldOf(now: nat) returns (included: seq<Tx>, events: seq<BlockEvent>, ws: seq<Witness>)
      requires Valid()
      modifies this`world, this`mempool, checkins
      ensures Valid()
      ensures var s := old(Value());
        var own := IncludeCheckins(k, ProducerBody(k, s, now).0, s.cache, s.latest.height + 1);
        && Value() == s.(world := WithSlashing(own.world, s.slashing), mempool := Excess(s.mempool), cache := own.cache)
        && ws == own.checkins && included == ProducerRun(k, s, now).included
        && events == ProducerRun(k, s, now).events + ProducerBody(k, s, now).1 + own.events
    {
      hide Books, WithBooks, ProducerBody, ProducerRun, IncludeCheckins, Excess;
      var txEvents, rewards, settlement;
      included, txEvents, rewards := ProduceBody(now);
      ws, settlement := IncludeWitnesses(latest.height + 1);
      SyncSlashingToWorld();
      events := txEvents + rewards + settlement;
    }

    /** If this node stands in for the primary, the primary missed its slot. */
    method RecordMiss(primary: Option<Address>, isFallback: bool)
      requires primary == Election.Proposer(validators.active, SeedOf(k, Value()))
      requires isFallback == !IsPrimary(k, Value())
      modifies slashing
      ensures Value() == old(Value()).(slashing := ProducerSlashing(k, old(Value())))
    {
      if isFallback && primary.Some? {
        slashing.RecordAssignedSlot(primary.value);
        slashing.RecordMissedSlot(primary.value);
      }
    }

    method BuildBlock(now: nat, included: seq<Tx>, events: seq<BlockEvent>, ws: seq<Witness>) returns (b: Block)
      ensures var body := Block(latest.height + 1, latest.hash, now, self, included, k.stateRoot(world), 0, [], events, ws);
        var h := k.blockHash(body.HashedPart());
        b == body.(hash := h, signatures := [(self, k.sign(self, h))])
    {
      b := Block(latest.height + 1, latest.hash, now, self, included, k.stateRoot(world), 0, [], events, ws);
      b := b.(hash := k.blockHash(b.HashedPart()));
      b := b.(signatures := [(self, k.sign(self, b.hash))]);
    }

    /** A node that leads the next height, with the miss recorded, completes its block. */
    method CompleteBlock(now: nat) returns (b: Block)
      requires Valid()
      modifies this, slashing, validators, checkins
      ensures Valid()
      ensures var led := old(Value());
        && b == BlockFrom(k, led, now, IncludeCheckins(k, ProducerBody(k, led, now).0, led.cache, led.latest.height + 1))
        && Value() == AfterBlock(k, led, now)
    {
      hide ProducerRun, ProducerBody, IncludeCheckins, Rotated, Excess;
      var included, events, ws := ProduceWorldOf(now);
      b := BuildBlock(now, included, events, ws);
      Adopt(b);
      RotateEpoch(b.height);
    }

    method ProduceBlock(now: nat, elapsed: nat) returns (r: Option<Block>)
      requires Valid()
      modifies this, slashing, validators, checkins
      ensures Valid()
      ensures MayProduce(k, old(Value()), elapsed) ==>
        r == Some(ProducedBlock(k, old(Value()), now)) && Value() == AfterProducing(k, old(Value()), now)
      ensures !MayProduce(k, old(Value()), elapsed) ==> r == None && Value() == old(Value())
    {
      hide ProducedBlock, AfterProducing, BlockFrom, AfterBlock, ProducerBody, IncludeCheckins;
      ghost var s := Value();
      var primary, mine, isFallback := Leadership(elapsed);
      if !mine {
        return None;
      }
      RecordMiss(primary, isFallback);
      ghost var led := Value();
      var b := CompleteBlock(now);
      ProductionFromLead(k, s, led, now, b, Value());
      return Some(b);
    }

    // -------------------------------------------------------------- applying

    /** The distinct active validators whose signatures on the block hold. */
    method CollectSigners(b: Block) returns (signers: set<Address>)
      ensures signers == ValidSigners(k, validators.active, b)
    {
      signers := {};
      for i := 0 to |b.signatures|
        invariant signers == set j | 0 <= j < i && IsActive(validators.active, b.signatures[j].0)
                                    && k.verifies(b.signatures[j].0, b.hash, b.signatures[j].1) :: b.signatures[j].0
      {
        var (a, signature) := b.signatures[i];
        if IsActive(validators.active, a) && k.verifies(a, b.hash, signature) {
          signers := signers + {a};
        }
      }
    }

    /** The checks made before anything changes. */
    method CheckHeader(b: Block, isSync: bool, clock: nat) returns (r: Option<Rejection>)
      ensures r == HeaderFault(k, Value(), b, isSync, clock)
    {
      if b.height != latest.height + 1 { return Some(HeightMismatch); }
      if b.prevHash != latest.hash { return Some(PrevHashMismatch); }
      if b.hash != k.blockHash(b.HashedPart()) { return Some(InvalidHash); }
      if b.timestamp > clock + 30 { return Some(FutureTimestamp); }
      if b.timestamp < latest.timestamp { return Some(TimestampRegresses); }
      if |b.transactions| > MAX_BLOCK_TXS { return Some(TooManyTransactions); }
      var signers := CollectSigners(b);
      var n := |validators.active|;
      var required := if n < 7 then 1 else Quorum(n);
      if |signers| < required && !(isSync && b.validator in signers) {
        return Some(InsufficientSignatures);
      }
      return None;
    }

    /** Accepts the primary or the fallback; the fallback's block records the primary's miss. */
    method CheckProposer(b: Block) returns (allowed: bool)
      modifies slashing
      ensures allowed == ProposerAllowed(k, old(Value()), b)
      ensures Value() == if allowed then old(Value()).(slashing := VerifierSlashing(k, old(Value()), b)) else old(Value())
    {
      var seed := k.vrfSeed(b.prevHash, b.height);
      var expected := Election.ElectProposer(validators.active, seed);
      var fallback := Election.ElectFallbackProposer(validators.active, seed);
      if expected == None {
        return true;
      }
      var isPrimary := b.validator == expected.value;
      var isFallback := fallback == Some(b.validator);
      if !isPrimary && !isFallback {
        return false;
      }
      if isFallback && !isPrimary {
        slashing.RecordAssignedSlot(expected.value);
        slashing.RecordMissedSlot(expected.value);
      }
      return true;
    }

    /** Transactions, rewards and uptime on a clone of the state. */
    method ReplayBody(b: Block) returns (r: Option<(World, nat)>)
      ensures r == ReplayWorld(k, Value(), b)
    {
      hide Kernel.ApplyTx, Kernel.BlockReward, Kernel.MiningReward, Kernel.DistributeFees;
      var w := world.(blockHeight := b.height, blockTimestamp := b.timestamp);
      ghost var start := w;
      var fees := 0;
      for i := 0 to |b.transactions|
        invariant Replay(k, start, b.transactions, 0)
          == (match Replay(k, w, b.transactions[i..], i)
              case None => None
              case Some((end, rest)) => Some((end, fees + rest)))
      {
        var (next, receipt) := k.ApplyTx(w, b.transactions[i], i);
        assert b.transactions[i..][1..] == b.transactions[i + 1..];
        if receipt == None {
          return None;
        }
        w := next;
        fees := fees + receipt.value.fee;
      }
      var online := OnlineValidators();
      var (w1, _) := k.BlockReward(w, online, b.height);
      var (w2, _) := k.MiningReward(w1, b.height);
      var (w3, _) := k.DistributeFees(w2, b.validator, fees);
      var tracked := TrackUptime(w3, b.validator);
      return Some((tracked, fees));
    }

    /** Checks (a) to (f) on every witness of a block. */
    method CheckWitnesses(miners: map<Address, nat>, height: nat, ws: seq<Witness>) returns (fault: Option<string>)
      ensures fault == FirstFault(k, miners, store, height, ws, {})
    {
      var seen: set<Address> := {};
      for i := 0 to |ws|
        invariant FirstFault(k, miners, store, height, ws, {}) == FirstFault(k, miners, store, height, ws[i..], seen)
      {
        var w := ws[i];
        fault := WitnessFault(k, miners, store, height, w);
        if fault.Some? {
          return fault;
        }
        if w.miner in seen {
          return Some("duplicate miner in same block");
        }
        seen := seen + {w.miner};
      }
      return None;
    }

    method ProcessCheckins(w: World, height: nat, ws: seq<Witness>) returns (r: Result<World, string>)
      ensures r == VerifyCheckins(k, w, store, height, ws)
    {
      hide Kernel.MigrateMiners, Kernel.EpochBoundary, Kernel.MinerActivity;
      if height >= CHECKIN_V3_HEIGHT {
        var settled := w;
        if height == CHECKIN_V3_HEIGHT {
          settled := k.MigrateMiners(settled);
        }
        if IsMinerEpochBoundary(height) {
          settled := k.EpochBoundary(settled, height).0;
        }
        var fault := CheckWitnesses(settled.miners, height, ws);
        if fault.Some? {
          return Err(fault.value);
        }
        var miners := CreditMiners(settled.miners, ws, MinerEpoch(height));
        return Ok(settled.(miners := miners));
      }
      if ws != [] {
        return Err("checkin_witnesses not allowed before V3 activation");
      }
      var (boundary, _) := k.EpochBoundary(w, height);
      return Ok(k.MinerActivity(boundary, height));
    }

    method CacheWitnesses(ws: seq<Witness>)
      requires Valid()
      modifies checkins
      ensures Valid() && checkins.entries == AllInserted(old(checkins.entries), ws)
    {
      for i := 0 to |ws|
        invariant Valid() && AllInserted(old(checkins.entries), ws) == AllInserted(checkins.entries, ws[i..])
      {
        checkins.Insert(ws[i]);
      }
    }

    /** The second half: check-ins, state root, supply, and acceptance. */
    method Conclude(b: Block, w: World, fees: nat) returns (r: Verdict)
      requires Valid()
      modifies this, slashing, validators, checkins
      ensures Valid() && (Value(), r) == Concluded(k, old(Value()), b, w, fees)
    {
      hide VerifyCheckins, AllInserted, Rotated, Rewards.Supply, Books, FeeBurn;
      var supplyBefore := Rewards.TotalSupply(Books(world));
      var checked := ProcessCheckins(w, b.height, b.checkins);
      if checked.Err? {
        return Refused(BadCheckin(checked.error));
      }
      if b.height >= CHECKIN_V3_HEIGHT {
        CacheWitnesses(b.checkins);
      }
      var clone := WithSlashing(checked.value, slashing.Value());
      if k.stateRoot(clone) != b.stateRoot {
        return Refused(StateRootMismatch);
      }
      var supplyAfter := Rewards.TotalSupply(Books(clone));
      if supplyAfter + FeeBurn(fees) != supplyBefore {
        return Refused(SupplyViolation);
      }
      AcceptBlock(b, clone);
      return Accepted;
    }

    method AcceptBlock(b: Block, clone: World)
      requires Valid()
      modifies this, slashing, validators
      ensures Valid() && Value() == Rotated(Adopted(k, old(Value()), b, clone), b.height)
    {
      hide Rotated;
      world := clone;
      Adopt(b);
      RotateEpoch(b.height);
    }

    method ApplyRemoteBlock(b: Block, isSync: bool, clock: nat) returns (r: Verdict)
      requires Valid()
      modifies this, slashing, validators, checkins
      ensures Valid() && (Value(), r) == Applied(k, old(Value()), b, isSync, clock)
    {
      hide HeaderFault, ProposerAllowed, VerifierSlashing, ReplayWorld, Concluded;
      ghost var s := Value();
      var fault := CheckHeader(b, isSync, clock);
      if fault.Some? {
        return Refused(fault.value);
      }
      var allowed := CheckProposer(b);
      if !allowed {
        return Refused(ProposerMismatch);
      }
      var replayed := ReplayBody(b);
      SlotsDoNotShowInReplay(k, s, Value(), b);
      if replayed == None {
        return Refused(TransactionFailed);
      }
      r := Conclude(b, replayed.value.0, replayed.value.1);
    }

    // -------------------------------------------------------------- votes and offered witnesses

    method ApplyVote(voter: Address, height: nat, hash: Hash, signature: Signature) returns (accepted: bool)
      modifies this
      ensures Value() == Voted(k, old(Value()), voter, height, hash, signature)
      ensures !accepted ==> Value() == old(Value())
    {
      if height != latest.height || hash != latest.hash { return false; }
      if !IsActive(validators.active, voter) || voter in pendingVotes { return false; }
      for i := 0 to |latest.signatures|
        invariant forall j :: 0 <= j < i ==> latest.signatures[j].0 != voter
      {
        if latest.signatures[i].0 == voter { return false; }
      }
      if !k.verifies(voter, hash, signature) { return false; }
      pendingVotes := pendingVotes[voter := signature];
      latest := latest.(signatures := latest.signatures + [(voter, signature)]);
      store := store[latest.height := latest];
      return true;
    }

    /** A witness from gossip, a direct push or RPC enters the cache when it passes every check. */
    method OfferWitness(w: Witness) returns (accepted: bool)
      requires Valid()
      modifies checkins
      ensures Valid() && Value() == Offered(k, old(Value()), w)
      ensures accepted <==> world.blockHeight >= CHECKIN_V3_HEIGHT && OfferFault(k, old(Value()), w) == None
    {
      if world.blockHeight < CHECKIN_V3_HEIGHT { return false; }
      if OfferFault(k, Value(), w).Some? { return false; }
      checkins.Insert(w);
      return true;
    }
  }

  /** The next validator, online or not. */
  lemma OnlineStep(active: seq<ActiveValidator>, offline: set<Address>, i: nat, r: seq<(Address, nat)>)
    requires i < |active|
    ensures r + RewardedValidators(active[i..], offline)
         == (if active[i].address !in offline then r + [(active[i].address, active[i].weight)] else r)
            + RewardedValidators(active[i + 1..], offline)
  {
    assert active[i..][0] == active[i] && active[i..][1..] == active[i + 1..];
    assert [] + RewardedValidators(active[i + 1..], offline) == RewardedValidators(active[i + 1..], offline);
  }

  lemma NobodyOnline(offline: set<Address>, r: seq<(Address, nat)>)
    ensures r + RewardedValidators([], offline) == r
  {
  }

  /** An execution after what has been collected so far. */
  ghost function Continued(included: seq<Tx>, fees: nat, events: seq<BlockEvent>, rest: Execution): Execution {
    Execution(rest.world, fees + rest.fees, included + rest.included, events + rest.events)
  }

  lemma ContinuedOnce(included: seq<Tx>, fees: nat, events: seq<BlockEvent>, tx: Tx, r: Receipt, rest: Execution)
    ensures Continued(included, fees, events, Execution(rest.world, r.fee + rest.fees, [tx] + rest.included, r.events + rest.events))
         == Continued(included + [tx], fees + r.fee, events + r.events, rest)
  {
    assert included + ([tx] + rest.included) == included + [tx] + rest.included;
    assert events + (r.events + rest.events) == events + r.events + rest.events;
  }

  lemma ExecuteFirst(k: Kernel, w: World, txs: seq<Tx>, index: nat)
    requires txs != []
    ensures var (next, receipt) := k.ApplyTx(w, txs[0], index);
      var rest := Execute(k, next, txs[1..], index + 1);
      Execute(k, w, txs, index) == if receipt == None then rest
        else Execution(rest.world, receipt.value.fee + rest.fees, [txs[0]] + rest.included, receipt.value.events + rest.events)
  {
  }

  lemma ExecuteNone(k: Kernel, w: World, index: nat)
    ensures Execute(k, w, [], index) == Execution(w, 0, [], [])
  {
  }

  lemma SlotsDoNotShowInReplay(k: Kernel, s: NodeState, t: NodeState, b: Block)
    requires t == s.(slashing := t.slashing)
    ensures ReplayWorld(k, t, b) == ReplayWorld(k, s, b)
  {
    hide Kernel.BlockReward, Kernel.MiningReward, Kernel.DistributeFees;
  }

  /** The block a leading node builds once its check-ins are settled. */
  ghost function BlockFrom(k: Kernel, led: NodeState, now: nat, own: OwnCheckins): Block {
    var run := ProducerRun(k, led, now);
    var b := Block(led.latest.height + 1, led.latest.hash, now, led.self, run.included,
                   k.stateRoot(WithSlashing(own.world, led.slashing)), 0, [],
                   run.events + ProducerBody(k, led, now).1 + own.events, own.checkins);
    var h := k.blockHash(b.HashedPart());
    b.(hash := h, signatures := [(led.self, k.sign(led.self, h))])
  }

  /** The node after completing its block. */
  ghost function AfterBlock(k: Kernel, led: NodeState, now: nat): NodeState {
    var own := IncludeCheckins(k, ProducerBody(k, led, now).0, led.cache, led.latest.height + 1);
    Rotated(Adopted(k, led.(mempool := Excess(led.mempool), cache := own.cache), BlockFrom(k, led, now, own),
                    WithSlashing(own.world, led.slashing)), led.latest.height + 1)
  }

  lemma BodyIgnoresSlots(k: Kernel, s: NodeState, led: NodeState, now: nat)
    requires led == s.(slashing := led.slashing)
    ensures ProducerRun(k, led, now) == ProducerRun(k, s, now) && ProducerBody(k, led, now) == ProducerBody(k, s, now)
  {
    hide Rewarded, Execute, SortTxs, Tracked;
  }

  /** Recording the miss first changes nothing else about production. */
  lemma ProductionFromLead(k: Kernel, s: NodeState, led: NodeState, now: nat, b: Block, after: NodeState)
    requires led == s.(slashing := ProducerSlashing(k, s))
    requires b == BlockFrom(k, led, now, IncludeCheckins(k, ProducerBody(k, led, now).0, led.cache, led.latest.height + 1))
    requires after == AfterBlock(k, led, now)
    ensures b == ProducedBlock(k, s, now) && after == AfterProducing(k, s, now)
  {
    hide ProducerRun, ProducerBody, IncludeCheckins, Rotated, Adopted, Excess, WithSlashing, ProducerSlashing;
    BodyIgnoresSlots(k, s, led, now);
  }
}
