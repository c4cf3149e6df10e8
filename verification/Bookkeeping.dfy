/** What the steps of a block do to the supply, to pending mining rewards, and to last check-ins. */
module Bookkeeping {
  import opened ConsensusTypes
  import opened NodeTypes
  import opened NodeSpec
  import Rewards
  import Staking
  import Transactions

  /** Mining rewards are booked for the boundary that the block at `height` or a later one settles, and every delegation is
    * of a validator with stake. */
  ghost predicate Booked(w: World, height: nat) {
    Rewards.Booked(Books(w), height) && Staking.Backed(Books(w))
  }

  /** A world holds the treasury it was given. */
  lemma BooksHold(w: World, t: Rewards.Treasury)
    ensures Books(WithBooks(w, t)) == t
  {
    assert Accounts(WithBooks(w, t)) == t.miners;
  }

  lemma CheckinsOfBooks(w: World)
    ensures w.miners == Rewards.Checkins(Books(w).miners) && w.miners.Keys == Books(w).miners.Keys
  {
  }

  /** Steps that leave last check-ins alone leave the world's. */
  lemma SameCheckins(w: World, t: Rewards.Treasury)
    requires Rewards.Checkins(t.miners) == Rewards.Checkins(Books(w).miners)
    ensures WithBooks(w, t).miners == w.miners
  {
    CheckinsOfBooks(w);
  }

  // ---------------------------------------------------------------- rewards

  /** Stakes and delegations are as before, and below the epoch scheme so is the bucket. */
  predicate KeepsStakes(before: World, after: World, height: nat) {
    && after.stakes == before.stakes && after.ledger.delegations == before.ledger.delegations
    && (height < Rewards.HEARTBEAT_V2_HEIGHT ==> after.ledger.bucket == before.ledger.bucket)
  }

  lemma SameBacking(w: World, v: World, height: nat)
    requires KeepsStakes(w, v, height)
    ensures Staking.Backed(Books(v)) <==> Staking.Backed(Books(w))
  {
    Transactions.BackingKept(w, v);
  }

  /** A reward step that leaves miners and stakes alone does so in the world. */
  lemma RewardStep(w: World, t: Rewards.Treasury, height: nat)
    requires t.miners == Books(w).miners && Rewards.SameStakes(Books(w), t)
    requires height < Rewards.HEARTBEAT_V2_HEIGHT ==> t.bucket == Books(w).bucket
    ensures var v := WithBooks(w, t);
      Supply(v) == Rewards.Supply(t) && Books(v).miners == Books(w).miners && v.miners == w.miners && KeepsStakes(w, v, height)
  {
    BooksHold(w, t);
    SameCheckins(w, t);
    hide Rewards.Supply, Accounts;
  }

  lemma BlockRewardStep(k: Kernel, w: World, vs: seq<(Address, nat)>, height: nat)
    ensures var v := k.BlockReward(w, vs, height).0;
      Supply(v) == Supply(w) && Books(v).miners == Books(w).miners && v.miners == w.miners && KeepsStakes(w, v, height)
  {
    hide Books, WithBooks, Rewards.Supply, Rewards.BlockReward, KeepsStakes;
    Rewards.BlockRewardConserves(Books(w), vs, height);
    Rewards.RewardsKeepMiners(Books(w), vs, 0, 0, height);
    RewardStep(w, Rewards.BlockReward(Books(w), vs, height), height);
  }

  lemma MiningRewardStep(k: Kernel, w: World, height: nat)
    ensures var v := k.MiningReward(w, height).0;
      Supply(v) == Supply(w) && Books(v).miners == Books(w).miners && v.miners == w.miners && KeepsStakes(w, v, height)
  {
    hide Books, WithBooks, Rewards.Supply, Rewards.MiningReward, KeepsStakes;
    Rewards.MiningRewardConserves(Books(w), height);
    Rewards.RewardsKeepMiners(Books(w), [], 0, 0, height);
    RewardStep(w, Rewards.MiningReward(Books(w), height), height);
  }

  lemma FeesStep(k: Kernel, w: World, a: Address, fees: nat, height: nat)
    ensures var v := k.DistributeFees(w, a, fees).0;
      && Supply(v) == Supply(w) + fees - FeeBurn(fees)
      && Books(v).miners == Books(w).miners && v.miners == w.miners && KeepsStakes(w, v, height)
  {
    hide Books, WithBooks, Rewards.Supply, Rewards.FeesDistributed, KeepsStakes;
    Rewards.FeesReturn(Books(w), a, fees);
    Rewards.RewardsKeepMiners(Books(w), [], a, fees, height);
    RewardStep(w, Rewards.FeesDistributed(Books(w), a, fees), height);
  }

  lemma RewardedBooks(k: Kernel, w: World, rewarded: seq<(Address, nat)>, proposer: Address, height: nat, fees: nat)
    ensures var v := Rewarded(k, w, rewarded, proposer, height, fees).0;
      && Supply(v) == Supply(w) + fees - FeeBurn(fees) && v.miners == w.miners && KeepsStakes(w, v, height)
      && forall h :: Booked(w, h) <==> Booked(v, h)
  {
    hide Books, Supply, FeeBurn, Kernel.BlockReward, Kernel.MiningReward, Kernel.DistributeFees;
    var w1 := k.BlockReward(w, rewarded, height).0;
    var w2 := k.MiningReward(w1, height).0;
    BlockRewardStep(k, w, rewarded, height);
    MiningRewardStep(k, w1, height);
    FeesStep(k, w2, proposer, fees, height);
    hide Staking.Backed;
    SameBacking(w, Rewarded(k, w, rewarded, proposer, height, fees).0, height);
  }

  // ---------------------------------------------------------------- settlement and credits

  /** A settlement step keeps last check-ins and stakes if it keeps them in the books. */
  lemma SettlementStep(w: World, t: Rewards.Treasury, height: nat)
    requires Rewards.Checkins(t.miners) == Rewards.Checkins(Books(w).miners) && Rewards.SameStakes(Books(w), t)
    requires height < Rewards.HEARTBEAT_V2_HEIGHT ==> t.bucket == Books(w).bucket
    ensures var v := WithBooks(w, t);
      Supply(v) == Rewards.Supply(t) && Books(v) == t && v.miners == w.miners && KeepsStakes(w, v, height)
  {
    BooksHold(w, t);
    SameCheckins(w, t);
    hide Rewards.Supply, Accounts;
  }

  lemma MigrationStep(k: Kernel, w: World, height: nat)
    ensures var v := k.MigrateMiners(w);
      Supply(v) == Supply(w) && KeepsStakes(w, v, height) && forall h :: Booked(w, h) <==> Booked(v, h)
  {
    BooksHold(w, Rewards.Migrated(Books(w)));
    Rewards.ActivityConserves(Books(w), 0);
    MigrationKeepsStakes(k, w, height);
    SameBacking(w, k.MigrateMiners(w), height);
    hide Books, Rewards.Supply, Accounts, KeepsStakes, Staking.Backed;
    forall h
      ensures Booked(w, h) <==> Booked(k.MigrateMiners(w), h)
    {
      Rewards.ActivityKeepsBookings(Books(w), 0, h);
    }
  }

  lemma MigrationKeepsStakes(k: Kernel, w: World, height: nat)
    ensures KeepsStakes(w, k.MigrateMiners(w), height)
  {
  }

  lemma BoundaryStep(k: Kernel, w: World, height: nat)
    requires Booked(w, height)
    ensures var v := k.EpochBoundary(w, height).0;
      Supply(v) == Supply(w) && v.miners == w.miners && KeepsStakes(w, v, height) && Booked(v, height + 1)
  {
    var t, v := Rewards.EpochBoundary(Books(w), height), k.EpochBoundary(w, height).0;
    Rewards.BoundaryKeepsMiners(Books(w), height);
    if height < Rewards.HEARTBEAT_V2_HEIGHT { Rewards.NoBoundaryBefore(Books(w), height); }
    hide Books, WithBooks, Rewards.EpochBoundary, Rewards.Supply, Staking.Backed;
    SettlementStep(w, t, height);
    Rewards.BoundaryConserves(Books(w), height);
    Rewards.BoundaryBooks(Books(w), height);
    OtherFieldsDoNotMatter(v, WithBooks(w, t));
    SameBacking(w, v, height);
  }

  lemma BoundaryKeepsCheckins(k: Kernel, w: World, height: nat)
    ensures k.EpochBoundary(w, height).0.miners == w.miners
  {
    hide Rewards.EpochBoundary;
    Rewards.BoundaryKeepsMiners(Books(w), height);
    SameCheckins(w, Rewards.EpochBoundary(Books(w), height));
  }

  lemma ActivityStep(k: Kernel, w: World, height: nat)
    ensures var v := k.MinerActivity(w, height);
      && Supply(v) == Supply(w) && v.miners == w.miners && KeepsStakes(w, v, height)
      && forall h :: Booked(w, h) <==> Booked(v, h)
  {
    var t := Rewards.ActivityUpdated(Books(w), height);
    assert Rewards.SameStakes(Books(w), t) && t.bucket == Books(w).bucket;
    hide Books, WithBooks, Rewards.Supply, Rewards.ActivityUpdated, KeepsStakes, Staking.Backed;
    Rewards.ActivityConserves(Books(w), height);
    Rewards.ActivityKeepsBookings(Books(w), height, 0);
    SettlementStep(w, t, height);
    SameBacking(w, k.MinerActivity(w, height), height);
    forall h
      ensures Booked(w, h) <==> Booked(k.MinerActivity(w, height), h)
    {
      Rewards.ActivityKeepsBookings(Books(w), height, h);
    }
  }

  lemma SettledBooks(k: Kernel, w: World, height: nat)
    requires Booked(w, height)
    ensures var v := Settled(k, w, height).0; Supply(v) == Supply(w) && KeepsStakes(w, v, height) && Booked(v, height + 1)
    ensures var v := SettledBeforeV3(k, w, height).0; Supply(v) == Supply(w) && KeepsStakes(w, v, height) && Booked(v, height + 1)
  {
    hide Supply, Books, Staking.Backed, Kernel.MigrateMiners, Kernel.EpochBoundary, Kernel.MinerActivity;
    MigrationStep(k, w, height);
    var w1 := if height == CHECKIN_V3_HEIGHT then k.MigrateMiners(w) else w;
    if IsMinerEpochBoundary(height) {
      BoundaryStep(k, w1, height);
    } else {
      Rewards.BookedBetween(Books(w1), height);
    }
    BoundaryStep(k, w, height);
    ActivityStep(k, k.EpochBoundary(w, height).0, height);
  }

  lemma {:induction false} CreditsKeepKeys(miners: map<Address, nat>, ws: seq<Witness>, epoch: nat)
    ensures CreditAll(miners, ws, epoch).Keys == miners.Keys
    decreases |ws|
  {
    if ws != [] {
      CreditsKeepKeys(if ws[0].miner in miners then miners[ws[0].miner := epoch] else miners, ws[1..], epoch);
    }
  }

  /** Setting last check-ins moves no token. */
  lemma CreditedBooks(w: World, miners: map<Address, nat>)
    requires miners.Keys == w.miners.Keys
    ensures Supply(w.(miners := miners)) == Supply(w)
    ensures forall h :: Booked(w, h) <==> Booked(w.(miners := miners), h)
  {
    var t, u := Books(w), Books(w.(miners := miners));
    assert forall m :: m in miners <==> m in w.miners;
    assert Rewards.Pendings(u.miners) == Rewards.Pendings(t.miners);
    forall h
      ensures Booked(w, h) <==> Booked(w.(miners := miners), h)
    {
      Rewards.SamePending(t, u, h);
      SameBacking(w, w.(miners := miners), 0);
    }
  }

  /** What the books do not hold does not matter to them. */
  lemma OtherFieldsDoNotMatter(v: World, w: World)
    requires v.ledger == w.ledger && v.miners == w.miners && v.stakes == w.stakes
    ensures Supply(v) == Supply(w) && forall h :: Booked(v, h) <==> Booked(w, h)
  {
    assert Books(v) == Books(w);
  }
}
