/** No miner is credited twice in an epoch, and no produced witness is used twice. */
module CheckinSafety {
  import opened Common
  import opened ConsensusTypes
  import opened NodeTypes
  import opened Checkins
  import opened NodeSpec
  import opened Transactions
  import opened Bookkeeping
  import opened Agreement
  import opened NodeRuns
  import Rewards
  import Slashing
  import ValidatorSet

  // ---------------------------------------------------------------- only check-ins move check-ins

  lemma KeepsThrough(a: World, b: World, c: World)
    requires KeepsCheckins(a, b) && KeepsCheckins(b, c)
    ensures KeepsCheckins(a, c)
  {
  }

  lemma {:induction false} ExecutionKeepsCheckins(k: Kernel, w: World, txs: seq<Tx>, i: nat)
    requires k.CheckinsLawful()
    ensures KeepsCheckins(w, Execute(k, w, txs, i).world)
    decreases |txs|
  {
    hide Kernel.ApplyTx, Kernel.CheckinsLawful;
    if txs != [] {
      var w' := k.ApplyTx(w, txs[0], i).0;
      TransactionKeepsCheckins(k, w, txs[0], i);
      ExecutionKeepsCheckins(k, w', txs[1..], i + 1);
      KeepsThrough(w, w', Execute(k, w, txs, i).world);
    }
  }

  lemma {:induction false} ReplayKeepsCheckins(k: Kernel, w: World, txs: seq<Tx>, i: nat)
    requires k.CheckinsLawful() && Replay(k, w, txs, i).Some?
    ensures KeepsCheckins(w, Replay(k, w, txs, i).value.0)
    decreases |txs|
  {
    hide Kernel.ApplyTx, Kernel.CheckinsLawful;
    if txs != [] {
      var w' := k.ApplyTx(w, txs[0], i).0;
      TransactionKeepsCheckins(k, w, txs[0], i);
      ReplayKeepsCheckins(k, w', txs[1..], i + 1);
      KeepsThrough(w, w', Replay(k, w, txs, i).value.0);
    }
  }

  lemma SettlementKeepsCheckins(k: Kernel, w: World, height: nat)
    requires k.CheckinsLawful()
    ensures height != CHECKIN_V3_HEIGHT ==> KeepsCheckins(w, Settled(k, w, height).0)
    ensures KeepsCheckins(w, SettledBeforeV3(k, w, height).0)
  {
    var w1 := k.EpochBoundary(w, height).0;
    BoundaryKeepsCheckins(k, w, height);
    ActivityStep(k, w1, height);
    hide Supply, Booked;
  }

  lemma ProducerBodyKeepsCheckins(k: Kernel, s: NodeState, now: nat)
    requires k.CheckinsLawful()
    ensures KeepsCheckins(s.world, ProducerBody(k, s, now).0)
  {
    hide Supply, Booked, FeeBurn, KeepsStakes, KeepsCheckins, Execute, Rewarded, Batch, Kernel.CheckinsLawful;
    var height, run := s.latest.height + 1, ProducerRun(k, s, now);
    ExecutionKeepsCheckins(k, Start(s, now), Batch(s.mempool), 0);
    RewardedBooks(k, run.world, RewardedValidators(s.active, s.offline), s.self, height, run.fees);
    SameCheckinsBothEnds(s.world, Start(s, now), run.world, ProducerBody(k, s, now).0);
  }

  lemma ReplayWorldKeepsCheckins(k: Kernel, s: NodeState, b: Block)
    requires k.CheckinsLawful() && ReplayWorld(k, s, b).Some?
    ensures KeepsCheckins(s.world, ReplayWorld(k, s, b).value.0)
  {
    hide Supply, Booked, FeeBurn, KeepsStakes, KeepsCheckins, Replay, Rewarded, Kernel.CheckinsLawful;
    var start := s.world.(blockHeight := b.height, blockTimestamp := b.timestamp);
    ReplayKeepsCheckins(k, start, b.transactions, 0);
    var (w, fees) := Replay(k, start, b.transactions, 0).value;
    RewardedBooks(k, w, RewardedValidators(s.active, s.offline), b.validator, b.height, fees);
    SameCheckinsBothEnds(s.world, start, w, ReplayWorld(k, s, b).value.0);
  }

  function MinersOf(ws: seq<Witness>): set<Address> {
    set i | 0 <= i < |ws| :: ws[i].miner
  }

  /** Crediting sets exactly the listed, registered miners to the block's epoch. */
  lemma {:induction false} CreditMeaning(miners: map<Address, nat>, ws: seq<Witness>, epoch: nat)
    ensures CreditAll(miners, ws, epoch).Keys == miners.Keys
    ensures forall m :: m in miners ==> CreditAll(miners, ws, epoch)[m] == if m in MinersOf(ws) then epoch else miners[m]
    decreases |ws|
  {
    if ws != [] {
      CreditMeaning(if ws[0].miner in miners then miners[ws[0].miner := epoch] else miners, ws[1..], epoch);
      assert MinersOf(ws) == {ws[0].miner} + MinersOf(ws[1..]) by {
        forall m | m in MinersOf(ws)
          ensures m == ws[0].miner || m in MinersOf(ws[1..])
        {
          var i :| 0 <= i < |ws| && ws[i].miner == m;
          if i > 0 { assert ws[1..][i - 1].miner == m; }
        }
        forall m | m in MinersOf(ws[1..])
          ensures m in MinersOf(ws)
        {
          var i :| 0 <= i < |ws[1..]| && ws[1..][i].miner == m;
          assert ws[i + 1].miner == m;
        }
      }
    }
  }

  // ---------------------------------------------------------------- at most one credit per epoch

  /** Verified witnesses credit their miners, none of whom carried the epoch before; others keep theirs. */
  lemma VerifiedCredits(k: Kernel, w: World, store: map<nat, Block>, height: nat, ws: seq<Witness>)
    requires k.CheckinsLawful() && VerifyCheckins(k, w, store, height, ws).Ok?
    ensures var after := VerifyCheckins(k, w, store, height, ws).value.miners;
      && (forall m :: m in MinersOf(ws) ==> m in after && after[m] == MinerEpoch(height))
      && (height != CHECKIN_V3_HEIGHT ==>
            forall m :: m in w.miners && w.miners[m] == MinerEpoch(height) ==>
              m in after && after[m] == MinerEpoch(height) && m !in MinersOf(ws))
  {
    hide Kernel.MigrateMiners, Kernel.EpochBoundary, Kernel.MinerActivity;
    SettlementKeepsCheckins(k, w, height);
    if height >= CHECKIN_V3_HEIGHT {
      var settled := Settled(k, w, height).0;
      FaultFree(k, settled.miners, store, height, ws, {});
      CreditMeaning(settled.miners, ws, MinerEpoch(height));
    }
  }

  /** What one accepted block does to check-ins. */
  ghost predicate CreditStep(s: NodeState, b: Block, t: NodeState) {
    && b.height == t.latest.height == s.latest.height + 1
    && (forall m :: m in MinersOf(b.checkins) ==> m in t.world.miners && t.world.miners[m] == MinerEpoch(b.height))
    && (b.height != CHECKIN_V3_HEIGHT ==>
          forall m :: m in s.world.miners && s.world.miners[m] == MinerEpoch(b.height) ==>
            m in t.world.miners && t.world.miners[m] == MinerEpoch(b.height) && m !in MinersOf(b.checkins))
  }

  lemma ConcludedCredits(k: Kernel, s: NodeState, b: Block, w: World, fees: nat)
    requires k.CheckinsLawful() && Concluded(k, s, b, w, fees).1 == Accepted
    ensures VerifyCheckins(k, w, s.store, b.height, b.checkins).Ok?
    ensures var t := Concluded(k, s, b, w, fees).0;
      t.latest == b && t.world.miners == VerifyCheckins(k, w, s.store, b.height, b.checkins).value.miners
  {
    hide Rewards.Supply, AllInserted, FirstFault, Kernel.MigrateMiners, Kernel.EpochBoundary, Kernel.MinerActivity;
  }

  lemma AcceptedIsCreditStep(k: Kernel, s: NodeState, b: Block, isSync: bool, clock: nat)
    requires k.CheckinsLawful() && Applied(k, s, b, isSync, clock).1 == Accepted
    ensures CreditStep(s, b, Applied(k, s, b, isSync, clock).0)
  {
    var (w, fees) := ReplayWorld(k, s, b).value;
    ReplayWorldKeepsCheckins(k, s, b);
    ConcludedCredits(k, s.(slashing := VerifierSlashing(k, s, b)), b, w, fees);
    VerifiedCredits(k, w, s.store, b.height, b.checkins);
  }

  /** A node's states along a chain of blocks: state i, then block i, then state i + 1. */
  ghost predicate CreditChain(states: seq<NodeState>, blocks: seq<Block>) {
    && |states| == |blocks| + 1
    && forall i :: 0 <= i < |blocks| ==> CreditStep(states[i], blocks[i], states[i + 1])
  }

  lemma {:induction false} HeightsCount(states: seq<NodeState>, blocks: seq<Block>, i: nat, j: nat)
    requires CreditChain(states, blocks) && i <= j <= |blocks|
    ensures states[j].latest.height == states[i].latest.height + (j - i)
    decreases j - i
  {
    if i < j {
      assert CreditStep(states[i], blocks[i], states[i + 1]);
      HeightsCount(states, blocks, i + 1, j);
    }
  }

  lemma EpochsBetween(a: nat, b: nat, c: nat)
    requires a <= b <= c && MinerEpoch(a) == MinerEpoch(c)
    ensures MinerEpoch(b) == MinerEpoch(a)
    ensures a < b ==> b != CHECKIN_V3_HEIGHT
  {
  }

  /** A credit stays on record until the epoch ends. */
  lemma {:induction false} CreditLasts(states: seq<NodeState>, blocks: seq<Block>, i: nat, j: nat, m: Address)
    requires CreditChain(states, blocks) && i < j <= |blocks| && m in MinersOf(blocks[i].checkins)
    requires MinerEpoch(states[j].latest.height) == MinerEpoch(blocks[i].height)
    ensures m in states[j].world.miners && states[j].world.miners[m] == MinerEpoch(blocks[i].height)
    decreases j - i
  {
    assert CreditStep(states[i], blocks[i], states[i + 1]);
    if i + 1 < j {
      assert CreditStep(states[j - 1], blocks[j - 1], states[j]);
      HeightsCount(states, blocks, i + 1, j - 1);
      EpochsBetween(blocks[i].height, states[j - 1].latest.height, blocks[j - 1].height);
      EpochsBetween(blocks[i].height, blocks[j - 1].height, blocks[j - 1].height);
      CreditLasts(states, blocks, i, j - 1, m);
    }
  }

  lemma CreditsAreDistinct(states: seq<NodeState>, blocks: seq<Block>, i: nat, j: nat, m: Address)
    requires CreditChain(states, blocks) && i < j < |blocks|
    requires MinerEpoch(blocks[i].height) == MinerEpoch(blocks[j].height)
    ensures !(m in MinersOf(blocks[i].checkins) && m in MinersOf(blocks[j].checkins))
  {
    if m in MinersOf(blocks[i].checkins) {
      assert CreditStep(states[i], blocks[i], states[i + 1]) && CreditStep(states[j], blocks[j], states[j + 1]);
      HeightsCount(states, blocks, i + 1, j);
      EpochsBetween(blocks[i].height, states[j].latest.height, blocks[j].height);
      EpochsBetween(blocks[i].height, blocks[j].height, blocks[j].height);
      CreditLasts(states, blocks, i, j, m);
    }
  }

  /** Along any chain of accepted blocks, no two blocks of one epoch credit the same miner. */
  lemma OneCreditPerEpoch(k: Kernel, states: seq<NodeState>, blocks: seq<Block>, syncs: seq<bool>, clocks: seq<nat>,
                          i: nat, j: nat, m: Address)
    requires k.CheckinsLawful()
    requires |states| == |blocks| + 1 && |syncs| == |clocks| == |blocks|
    requires forall n :: 0 <= n < |blocks| ==>
      Applied(k, states[n], blocks[n], syncs[n], clocks[n]) == (states[n + 1], Accepted)
    requires i < j < |blocks| && MinerEpoch(blocks[i].height) == MinerEpoch(blocks[j].height)
    ensures !(m in MinersOf(blocks[i].checkins) && m in MinersOf(blocks[j].checkins))
  {
    forall n | 0 <= n < |blocks|
      ensures CreditStep(states[n], blocks[n], states[n + 1])
    {
      assert Applied(k, states[n], blocks[n], syncs[n], clocks[n]) == (states[n + 1], Accepted);
      AcceptedIsCreditStep(k, states[n], blocks[n], syncs[n], clocks[n]);
    }
    CreditsAreDistinct(states, blocks, i, j, m);
  }

  /** And one block credits a miner through one witness only. */
  lemma OneWitnessPerBlock(k: Kernel, s: NodeState, b: Block, isSync: bool, clock: nat, i: nat, j: nat)
    requires Applied(k, s, b, isSync, clock).1 == Accepted
    requires i < j < |b.checkins|
    ensures b.checkins[i].miner != b.checkins[j].miner
  {
    hide Books, WithBooks;
    var w := ReplayWorld(k, s, b).value.0;
    assert VerifyCheckins(k, w, s.store, b.height, b.checkins).Ok?;
    FaultFree(k, Settled(k, w, b.height).0.miners, s.store, b.height, b.checkins, {});
  }

  // ---------------------------------------------------------------- produced witnesses are used once

  lemma {:induction false} MinerOrderMembers(pending: map<Address, Witness>)
    requires forall m :: m in pending ==> pending[m].miner == m
    ensures forall i :: 0 <= i < |InMinerOrder(pending)| ==>
      InMinerOrder(pending)[i].miner in pending && pending[InMinerOrder(pending)[i].miner] == InMinerOrder(pending)[i]
    ensures forall i, j :: 0 <= i < j < |InMinerOrder(pending)| ==>
      InMinerOrder(pending)[i].miner < InMinerOrder(pending)[j].miner
    decreases |pending|
  {
    if pending != map[] {
      var m := LeastOf(pending.Keys);
      var others := pending - {m};
      var rest := InMinerOrder(others);
      MinerOrderMembers(others);
      assert InMinerOrder(pending) == [pending[m]] + rest;
      forall i | 0 <= i < |rest|
        ensures rest[i].miner in pending && pending[rest[i].miner] == rest[i] && m < rest[i].miner
      {
        assert InMinerOrder(others)[i].miner in others;
        assert rest[i].miner in pending.Keys;
      }
    }
  }

  /** Every witness in the list has been overtaken: its miner's last check-in is at or past its epoch. */
  ghost predicate AllSpent(miners: map<Address, nat>, ws: seq<Witness>) {
    forall i :: 0 <= i < |ws| ==> ws[i].miner in miners && miners[ws[i].miner] >= ws[i].epoch
  }

  ghost predicate AllDifferent(ws: seq<Witness>) {
    forall i, j :: 0 <= i < j < |ws| ==> ws[i].miner != ws[j].miner || ws[i].epoch != ws[j].epoch
  }

  lemma SpentStaysSpent(a: World, b: World, ws: seq<Witness>)
    requires AllSpent(a.miners, ws) && KeepsCheckins(a, b)
    ensures AllSpent(b.miners, ws)
  {
  }

  ghost predicate UsedOnce(miners: map<Address, nat>, height: nat, used: seq<Witness>) {
    AllSpent(miners, used) && AllDifferent(used) && (height < CHECKIN_V3_HEIGHT ==> used == [])
  }

  /** The witnesses a producer includes are new, and are spent afterwards. */
  lemma IncludedOnce(k: Kernel, w: World, cache: Cache, height: nat, used: seq<Witness>, own: OwnCheckins)
    requires k.CheckinsLawful() && WellFiled(cache) && UsedOnce(w.miners, height, used)
    requires own == IncludeCheckins(k, w, cache, height + 1)
    ensures UsedOnce(own.world.miners, height + 1, used + own.checkins)
  {
    hide Kernel.MigrateMiners, Kernel.EpochBoundary, Kernel.MinerActivity;
    var next := height + 1;
    if next >= CHECKIN_V3_HEIGHT {
      var epoch, settled := MinerEpoch(next), Settled(k, w, next).0;
      var pending := Pending(cache, epoch, settled.miners, next >= CHECKIN_V3_1_HEIGHT);
      forall m | m in pending
        ensures pending[m].miner == m && m in settled.miners && settled.miners[m] < pending[m].epoch <= epoch
      {
        PendingIsFresh(cache, epoch, settled.miners, next >= CHECKIN_V3_1_HEIGHT, m);
      }
      assert AllSpent(settled.miners, used) by {
        SettlementKeepsCheckins(k, w, next);
        if next != CHECKIN_V3_HEIGHT { SpentStaysSpent(w, settled, used); }
      }
      MinerOrderMembers(pending);
      JoinIncluded(settled.miners, used, InMinerOrder(pending), epoch);
    } else {
      SettlementKeepsCheckins(k, w, next);
      assert used + own.checkins == [];
    }
  }

  lemma JoinIncluded(miners: map<Address, nat>, used: seq<Witness>, ws: seq<Witness>, epoch: nat)
    requires AllSpent(miners, used) && AllDifferent(used)
    requires forall i :: 0 <= i < |ws| ==> ws[i].miner in miners && miners[ws[i].miner] < ws[i].epoch <= epoch
    requires forall i, j :: 0 <= i < j < |ws| ==> ws[i].miner < ws[j].miner
    ensures AllSpent(CreditAll(miners, ws, epoch), used + ws) && AllDifferent(used + ws)
  {
    CreditMeaning(miners, ws, epoch);
    var all := used + ws;
    forall i | 0 <= i < |all|
      ensures all[i].miner in miners && CreditAll(miners, ws, epoch)[all[i].miner] >= all[i].epoch
    {
      if i >= |used| {
        assert all[i] == ws[i - |used|];
        assert all[i].miner in MinersOf(ws);
      } else if all[i].miner in MinersOf(ws) {
        var j :| 0 <= j < |ws| && ws[j].miner == all[i].miner;
        assert miners[ws[j].miner] < epoch;
      }
    }
    forall i, j | 0 <= i < j < |all|
      ensures all[i].miner != all[j].miner || all[i].epoch != all[j].epoch
    {
      if i >= |used| {
        assert all[i] == ws[i - |used|] && all[j] == ws[j - |used|];
      } else if j >= |used| {
        assert all[i] == used[i] && all[j] == ws[j - |used|];
      }
    }
  }

  /** All witnesses in the blocks the network produces along a run. */
  ghost function IncludedAlong(k: Kernel, ns: Network, rounds: seq<Round>): seq<Witness> {
    if rounds == [] then []
    else
      var before, r := NodeRuns.Run(k, ns, rounds[..|rounds| - 1]), rounds[|rounds| - 1];
      IncludedAlong(k, ns, rounds[..|rounds| - 1])
        + if Produces(k, before, r) then ProducedBlock(k, before[r.producer], r.now).checkins else []
  }

  lemma ProductionCheckins(k: Kernel, s: NodeState, now: nat)
    ensures var own, t := IncludeCheckins(k, ProducerBody(k, s, now).0, s.cache, s.latest.height + 1), AfterProducing(k, s, now);
      && t.latest.height == s.latest.height + 1 && t.world.miners == own.world.miners
      && ProducedBlock(k, s, now).checkins == own.checkins
  {
    hide IncludeCheckins, ProducerBody, ProducerRun, ValidatorSet.Inputs.Active, Slashing.State.Offline, Slashing.State.Expired;
  }

  lemma ProductionUsesOnce(k: Kernel, s: NodeState, now: nat, used: seq<Witness>, body: World, own: OwnCheckins)
    requires k.CheckinsLawful() && WellFiled(s.cache) && UsedOnce(s.world.miners, s.latest.height, used)
    requires body == ProducerBody(k, s, now).0 && own == IncludeCheckins(k, body, s.cache, s.latest.height + 1)
    ensures UsedOnce(own.world.miners, s.latest.height + 1, used + own.checkins)
  {
    hide ProducerBody, IncludeCheckins;
    assert KeepsCheckins(s.world, body) by { ProducerBodyKeepsCheckins(k, s, now); }
    SpentStaysSpent(s.world, body, used);
    IncludedOnce(k, body, s.cache, s.latest.height, used, own);
  }

  /** On every fair run no witness is included in two produced blocks, in one epoch or across epochs. */
  lemma {:induction false} WitnessesAreUsedOnce(k: Kernel, ns: Network, rounds: seq<Round>)
    requires k.Lawful() && k.CheckinsLawful() && InLockstep(k, ns) && ns != [] && FairRun(k, ns, rounds)
    ensures var node := NodeRuns.Run(k, ns, rounds)[0];
      UsedOnce(node.world.miners, node.latest.height, IncludedAlong(k, ns, rounds))
    ensures AllDifferent(IncludedAlong(k, ns, rounds))
  {
    hide Booked, Grounded, NodeAfter, ProducedBlock, AfterProducing, ProducerBody, IncludeCheckins,
      Kernel.Lawful, Kernel.CheckinsLawful;
    if rounds != [] {
      var front, r := rounds[..|rounds| - 1], rounds[|rounds| - 1];
      var before, used := NodeRuns.Run(k, ns, front), IncludedAlong(k, ns, front);
      WitnessesAreUsedOnce(k, ns, front);
      NetworkStaysInLockstep(k, ns, front);
      NodeStaysInStep(k, before, r, 0);
      if Produces(k, before, r) {
        assert Agree(before[0], before[r.producer]);
        var p := before[r.producer];
        var body := ProducerBody(k, p, r.now).0;
        ProductionUsesOnce(k, p, r.now, used, body, IncludeCheckins(k, body, p.cache, p.latest.height + 1));
        ProductionCheckins(k, p, r.now);
      } else {
        assert IncludedAlong(k, ns, rounds) == used;
      }
    }
  }
}
