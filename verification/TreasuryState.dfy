/** The reward functions and the staking handlers of the state crate, as updates of the state's fields. */
module TreasuryState {
  import opened Common
  import opened ConsensusTypes
  import opened Rewards
  import opened Staking

  class WorldState {
    var balances: map<Address, nat>
    var stakes: map<Address, nat>
    var unbonding: seq<Unbonding>
    var bucket: nat
    var miners: map<Address, Miner>
    var delegations: map<Address, Address>
    var commissions: map<Address, Bps>
    var epochCheckins: set<Address>

    function Value(): Treasury
      reads this
    {
      Treasury(balances, stakes, unbonding, bucket, miners, delegations, commissions)
    }

    constructor (t: Treasury, epochCheckins: set<Address>)
      ensures Value() == t && this.epochCheckins == epochCheckins
    {
      this.epochCheckins := epochCheckins;
      balances, stakes, unbonding, bucket, miners := t.balances, t.stakes, t.unbonding, t.bucket, t.miners;
      delegations, commissions := t.delegations, t.commissions;
    }

    method Credit(a: Address, amount: nat)
      modifies this`balances
      ensures balances == Paid(old(balances), a, amount)
    {
      if amount > 0 {
        balances := balances[a := Get(balances, a) + amount];
      }
    }

    /** A validator's part, split with the owner of its delegated stake. */
    method CreditThrough(a: Address, amount: nat)
      modifies this`balances
      ensures balances == PaidThrough(Value(), old(balances), a, amount)
    {
      var owner := if a in delegations then delegations[a] else a;
      if owner != a {
        var commission := if a in commissions then commissions[a] else DEFAULT_COMMISSION;
        var own := amount * commission / 10_000;
        CommissionWithin(amount, commission);
        Credit(a, own);
        Credit(owner, amount - own);
      } else {
        Credit(a, amount);
      }
    }

    method TotalOf(vs: seq<(Address, nat)>) returns (total: nat)
      ensures total == Sum(Weights(vs))
    {
      total := 0;
      for i := 0 to |vs|
        invariant Sum(Weights(vs)) == total + Sum(Weights(vs[i..]))
      {
        assert vs[i..][1..] == vs[i + 1..];
        total := total + vs[i].1;
      }
    }

    /** Proportional shares; the last one takes what is left. */
    method DistributeBlockReward(validators: seq<(Address, nat)>, height: nat)
      modifies this`balances
      ensures Value() == BlockReward(old(Value()), validators, height)
    {
      hide Shares, PayEach, Weights, RewardPerBlock;
      if validators == [] { return; }
      var pool := Get(balances, NODE_INCENTIVE_POOL);
      if pool == 0 { return; }
      var base := RewardPerBlock(height);
      var full := if height >= MINING_UPGRADE_HEIGHT then base * VALIDATOR_REWARD_BPS / 10_000 else base;
      var reward := if full <= pool then full else pool;
      if reward == 0 { return; }
      var total := TotalOf(validators);
      if total == 0 { return; }
      ghost var t := Value();
      balances := balances[NODE_INCENTIVE_POOL := pool - reward];
      ghost var start := balances;
      PayValidators(validators, reward, total);
      OwnersOnlyEach(Value(), t, start, validators, Shares(reward, Weights(validators), 0, 0, total));
    }

    method PayValidators(validators: seq<(Address, nat)>, reward: nat, total: nat)
      requires total == Sum(Weights(validators)) && total > 0
      modifies this`balances
      ensures balances == PayEach(Value(), old(balances), validators, Shares(reward, Weights(validators), 0, 0, total))
    {
      ghost var t, all := Value(), Rest(reward, validators, 0, 0, total);
      var distributed := 0;
      ghost var done: nat := 0;
      assert validators[0..] == validators;
      hide InShare, Shares, PaidThrough;
      for i := 0 to |validators|
        invariant Value() == t.(balances := balances)
        invariant Sharing(reward, validators[i..], done, distributed, total)
        invariant all[i..] == Rest(reward, validators[i..], done, distributed, total)
        invariant PayEach(t, t.balances, validators, all) == PayEach(t, balances, validators[i..], all[i..])
      {
        ghost var next;
        var share;
        share, next := TakeShare(reward, validators[i..], distributed, total, done);
        assert validators[i..][1..] == validators[i + 1..] && all[i..][1..] == all[i + 1..];
        OwnersOnly(Value(), t, balances, validators[i].0, share);
        CreditThrough(validators[i].0, share);
        distributed, done := distributed + share, next;
      }
      OwnersOnlyEach(Value(), t, t.balances, validators, all);
    }

    /** Half to the proposer, a fifth to the ecosystem fund; the rest is burned. */
    method DistributeFees(proposer: Address, fees: nat)
      modifies this`balances
      ensures Value() == FeesDistributed(old(Value()), proposer, fees)
    {
      if fees == 0 { return; }
      CreditThrough(proposer, fees * 50 / 100);
      Credit(ECOSYSTEM_FUND, fees * 20 / 100);
    }

    method CollectActive(addrs: seq<Address>) returns (active: seq<(Address, nat)>)
      requires forall a :: a in addrs ==> a in miners
      ensures active == ActiveMiners(miners, addrs)
    {
      hide ActiveMiners;
      active := [];
      assert addrs[0..] == addrs && active + ActiveMiners(miners, addrs) == ActiveMiners(miners, addrs);
      for i := 0 to |addrs|
        invariant ActiveMiners(miners, addrs) == active + ActiveMiners(miners, addrs[i..])
      {
        ActiveStep(miners, addrs, i, active);
        if miners[addrs[i]].active {
          active := active + [(addrs[i], miners[addrs[i]].reputation)];
        }
      }
      NobodyLeft(miners, active);
      assert addrs[|addrs|..] == [];
    }

    /** Direct payment of active miners, before the epoch scheme. */
    method DistributeMiningRewards(height: nat)
      modifies this`balances
      ensures Value() == DirectMiningReward(old(Value()), height)
    {
      hide Shares, PayMiners, Weights, RewardPerBlock, ActiveMiners, Ascending;
      if height < MINING_UPGRADE_HEIGHT { return; }
      var pool := Get(balances, NODE_INCENTIVE_POOL);
      if pool == 0 { return; }
      var addrs := InOrder(miners.Keys);
      var active := CollectActive(addrs);
      if active == [] { return; }
      var full := RewardPerBlock(height) * MINING_REWARD_BPS / 10_000;
      var reward := if full <= pool then full else pool;
      if reward == 0 { return; }
      var total := TotalOf(active);
      if total == 0 { return; }
      balances := balances[NODE_INCENTIVE_POOL := pool - reward];
      PayAll(active, reward, total);
    }

    method PayAll(active: seq<(Address, nat)>, reward: nat, total: nat)
      requires total == Sum(Weights(active)) && total > 0
      modifies this`balances
      ensures balances == PayMiners(old(balances), active, Shares(reward, Weights(active), 0, 0, total))
    {
      ghost var start, all := balances, Rest(reward, active, 0, 0, total);
      var distributed := 0;
      ghost var done: nat := 0;
      assert active[0..] == active;
      hide InShare, Shares;
      for i := 0 to |active|
        invariant Sharing(reward, active[i..], done, distributed, total)
        invariant all[i..] == Rest(reward, active[i..], done, distributed, total)
        invariant PayMiners(start, active, all) == PayMiners(balances, active[i..], all[i..])
      {
        ghost var next;
        var share;
        share, next := TakeShare(reward, active[i..], distributed, total, done);
        assert active[i..][1..] == active[i + 1..] && all[i..][1..] == all[i + 1..];
        Credit(active[i].0, share);
        distributed, done := distributed + share, next;
      }
    }

    method AccumulateMiningReward(height: nat)
      modifies this`balances, this`bucket
      ensures Value() == MiningReward(old(Value()), height)
    {
      if height < HEARTBEAT_V2_HEIGHT {
        DistributeMiningRewards(height);
        return;
      }
      var pool := Get(balances, NODE_INCENTIVE_POOL);
      if pool == 0 { return; }
      var full := RewardPerBlock(height) * MINING_REWARD_BPS / 10_000;
      var actual := if full <= pool then full else pool;
      if actual == 0 { return; }
      balances := balances[NODE_INCENTIVE_POOL := pool - actual];
      bucket := bucket + actual;
    }

    /** Settles one miner: attendance, reputation, activity, and its pending reward. */
    method SettleMiner(a: Address, height: nat)
      requires a in miners && height >= MINER_EPOCH_LENGTH
      modifies this`balances, this`miners
      ensures balances == PendingPaid(old(balances), a, old(miners)[a], height)
      ensures miners == old(miners)[a := SettledMiner(old(miners)[a], height)]
    {
      var epoch := height / MINER_EPOCH_LENGTH;
      var settled := epoch - 1;
      var m := miners[a];
      var seen := if height >= CHECKIN_V3_HEIGHT then m.lastCheckin else m.lastHeartbeat / MINER_EPOCH_LENGTH;
      if seen == settled {
        if m.pendingEpoch == settled && m.pending > 0 {
          Credit(a, m.pending);
        }
        m := m.(active := true, misses := 0, attendance := m.attendance * 2 % 65536 + 1);
        var age := if height >= m.registeredAt then height - m.registeredAt else 0;
        if age >= BLOCKS_30_DAYS {
          m := m.(reputation := Max(m.reputation, REPUTATION_VETERAN_BPS));
        } else if age >= BLOCKS_7_DAYS {
          m := m.(reputation := Max(m.reputation, REPUTATION_ESTABLISHED_BPS));
        }
      } else {
        if m.pending > 0 {
          Credit(NODE_INCENTIVE_POOL, m.pending);
        }
        m := m.(misses := if m.misses < 65535 then m.misses + 1 else m.misses);
        m := m.(attendance := m.attendance * 2 % 65536);
        var decayed := m.reputation * (10_000 - REPUTATION_DECAY_BPS) / 10_000 % 65536;
        m := m.(reputation := Max(decayed, REPUTATION_NEWCOMER_BPS));
        if m.misses >= MINER_GRACE_EPOCHS {
          m := m.(active := false);
        }
      }
      miners := miners[a := m.(pending := 0, pendingEpoch := epoch)];
    }

    method CollectQualified(addrs: seq<Address>) returns (qs: seq<(Address, nat)>)
      requires forall a :: a in addrs ==> a in miners
      ensures qs == Qualified(miners, addrs)
    {
      hide Qualified, MiningWeight;
      qs := [];
      assert addrs[0..] == addrs && qs + Qualified(miners, addrs) == Qualified(miners, addrs);
      for i := 0 to |addrs|
        invariant Qualified(miners, addrs) == qs + Qualified(miners, addrs[i..])
      {
        QualifiedStep(miners, addrs, i, qs);
        var weight := MiningWeight(miners[addrs[i]]);
        if weight > 0 {
          qs := qs + [(addrs[i], weight)];
        }
      }
      NobodyLeft(miners, qs);
      assert addrs[|addrs|..] == [];
    }

    /** Books the bucket for the qualified miners, or returns it to the pool. */
    method BookBucket()
      modifies this`balances, this`bucket, this`miners
      ensures Value() == BucketBooked(old(Value()))
    {
      if bucket == 0 { return; }
      var addrs := InOrder(miners.Keys);
      var qs := CollectQualified(addrs);
      QualifiedAreListed(miners, addrs);
      if qs == [] {
        Credit(NODE_INCENTIVE_POOL, bucket);
      } else {
        BookShares(qs);
      }
      bucket := 0;
    }

    method BookShares(qs: seq<(Address, nat)>)
      requires qs != [] && Sum(Weights(qs)) > 0 && forall i :: 0 <= i < |qs| ==> qs[i].0 in miners
      modifies this`miners
      ensures miners == BookEach(old(miners), qs, Shares(bucket, Weights(qs), 0, 0, Sum(Weights(qs))))
    {
      var total := TotalOf(qs);
      ghost var all := Rest(bucket, qs, 0, 0, total);
      ghost var start := miners;
      var distributed := 0;
      ghost var done: nat := 0;
      hide InShare, Shares;
      assert qs[0..] == qs;
      for i := 0 to |qs|
        invariant miners.Keys == start.Keys
        invariant Sharing(bucket, qs[i..], done, distributed, total)
        invariant all[i..] == Rest(bucket, qs[i..], done, distributed, total)
        invariant BookEach(start, qs, all) == BookEach(miners, qs[i..], all[i..])
      {
        ghost var next;
        var share;
        share, next := TakeShare(bucket, qs[i..], distributed, total, done);
        assert qs[i..][1..] == qs[i + 1..] && all[i..][1..] == all[i + 1..];
        if share > 0 {
          miners := miners[qs[i].0 := miners[qs[i].0].(pending := share)];
        }
        distributed, done := distributed + share, next;
      }
    }

    method ProcessMinerEpochBoundary(height: nat)
      modifies this`balances, this`bucket, this`miners, this`epochCheckins
      ensures Value() == EpochBoundary(old(Value()), height)
      ensures epochCheckins == CheckinsAfter(old(epochCheckins), height)
    {
      if height < HEARTBEAT_V2_HEIGHT || height % MINER_EPOCH_LENGTH != 0 { return; }
      if height == HEARTBEAT_V2_HEIGHT {
        miners := map m | m in miners :: Normalised(miners[m]);
        Credit(NODE_INCENTIVE_POOL, bucket);
        bucket := 0;
        epochCheckins := {};
        return;
      }
      var addrs := InOrder(miners.Keys);
      SettleAll(addrs, height);
      BookBucket();
      epochCheckins := {};
    }

    method SettleAll(addrs: seq<Address>, height: nat)
      requires height >= MINER_EPOCH_LENGTH && forall a :: a in addrs ==> a in miners
      modifies this`balances, this`miners
      ensures (balances, miners) == SettleEach(old(balances), old(miners), addrs, height)
      ensures miners.Keys == old(miners).Keys
    {
      ghost var b, ms := balances, miners;
      assert addrs[0..] == addrs;
      for i := 0 to |addrs|
        invariant miners.Keys == ms.Keys
        invariant SettleEach(b, ms, addrs, height) == SettleEach(balances, miners, addrs[i..], height)
      {
        assert addrs[i..][1..] == addrs[i + 1..];
        SettleMiner(addrs[i], height);
      }
    }

    method UpdateMinerActivity(height: nat)
      modifies this`miners
      ensures Value() == ActivityUpdated(old(Value()), height)
    {
      if height >= HEARTBEAT_V2_HEIGHT { return; }
      miners := map m | m in miners ::
        if miners[m].active && miners[m].lastHeartbeat + MINER_GRACE_BLOCKS < height then miners[m].(active := false) else miners[m];
    }

    method MigrateMinersV2ToV3()
      modifies this`miners
      ensures Value() == Migrated(old(Value()))
    {
      miners := map m | m in miners :: miners[m].(lastCheckin := miners[m].lastHeartbeat / MINER_EPOCH_LENGTH);
    }

    // -------------------------------------------------------------- staking

    method CheckDeposit(from: Address, amount: nat, v: Address, commission: nat) returns (ok: bool)
      ensures ok == MayDeposit(Value(), from, amount, v, commission)
    {
      if amount == 0 || commission > 10_000 { return false; }
      if Get(balances, from) < amount { return false; }
      var current := Get(stakes, v);
      if current + amount >= U128_LIMIT { return false; }
      if current == 0 && amount < MIN_STAKE { return false; }
      return true;
    }

    method HandleStakeDeposit(from: Address, amount: nat, validator: Address, commission: nat) returns (ok: bool)
      modifies this`balances, this`stakes, this`delegations, this`commissions
      ensures Outcome(Value(), ok) == Deposit(old(Value()), from, amount, validator, commission)
    {
      var v := if validator == 0 then from else validator;
      var permitted := CheckDeposit(from, amount, v, commission);
      if !permitted { return false; }
      var held, current := Get(balances, from), Get(stakes, v);
      balances := balances[from := held - amount];
      stakes := stakes[v := current + amount];
      if v in delegations && from != delegations[v] && from != v {
        balances := balances[from := Get(balances, from) + amount];
        stakes := stakes[v := current];
        assert balances == old(balances) && stakes == old(stakes)[v := current];
        return false;
      }
      RecordOwner(v, from, commission);
      return true;
    }

    /** The first to stake for a validator owns its delegation; the owner and the validator set the commission. */
    method RecordOwner(v: Address, from: Address, commission: Bps)
      requires v in delegations ==> delegations[v] == from || from == v
      modifies this`delegations, this`commissions
      ensures delegations == if v in old(delegations) then old(delegations) else old(delegations)[v := from]
      ensures commissions == old(commissions)[v := commission]
    {
      var owner := if v in delegations then Some(delegations[v]) else None;
      if owner == None {
        delegations := delegations[v := from];
      }
      if from == v || owner == None || owner == Some(from) {
        commissions := commissions[v := commission];
      }
    }

    /** The first validator, in address order, whose delegation the sender owns. */
    method FirstDelegation(from: Address) returns (r: Option<Address>)
      ensures r == if DelegatedBy(Value(), from) == {} then None else Some(LeastOf(DelegatedBy(Value(), from)))
    {
      hide LeastOf, Ascending;
      ghost var owned := DelegatedBy(Value(), from);
      var keys := InOrder(delegations.Keys);
      for i := 0 to |keys|
        invariant forall j :: 0 <= j < i ==> keys[j] !in owned
      {
        if delegations[keys[i]] == from {
          LeastOwned(owned, keys, i);
          return Some(keys[i]);
        }
      }
      assert forall v :: v in owned ==> v in keys;
      return None;
    }

    method CountEntries(a: Address) returns (n: nat)
      ensures n == Entries(unbonding, a)
    {
      n := 0;
      for i := 0 to |unbonding|
        invariant Entries(unbonding, a) == n + Entries(unbonding[i..], a)
      {
        assert unbonding[i..][1..] == unbonding[i + 1..];
        if unbonding[i].owner == a { n := n + 1; }
      }
    }

    method FindStake(from: Address, validator: Address) returns (r: Option<Address>)
      ensures r == WithdrawsFrom(Value(), from, validator)
    {
      if validator != 0 {
        if (validator !in delegations || delegations[validator] != from) && validator != from { return None; }
        return Some(validator);
      }
      if Get(stakes, from) > 0 { return Some(from); }
      r := FirstDelegation(from);
    }

    method HandleStakeWithdraw(from: Address, amount: nat, validator: Address, height: nat) returns (ok: bool)
      modifies this`stakes, this`delegations, this`commissions, this`unbonding
      ensures Outcome(Value(), ok) == Withdraw(old(Value()), from, amount, validator, height)
    {
      hide WithdrawsFrom, Entries;
      if amount == 0 { return false; }
      var target := FindStake(from, validator);
      if target == None { return false; }
      var v := target.value;
      var current := Get(stakes, v);
      if amount > current { return false; }
      var remaining := current - amount;
      if 0 < remaining < MIN_STAKE { return false; }
      if remaining == 0 {
        stakes, delegations, commissions := stakes - {v}, delegations - {v}, commissions - {v};
      } else {
        stakes := stakes[v := remaining];
      }
      var pending := CountEntries(v);
      if pending >= MAX_UNBONDING { return false; }
      unbonding := unbonding + [Unbonding(from, amount, height + UNBONDING_PERIOD)];
      return true;
    }

    /** The queue is taken out of the state before it is searched. */
    method HandleStakeClaim(from: Address, height: nat) returns (ok: bool)
      modifies this`balances, this`unbonding
      ensures Outcome(Value(), ok) == Claim(old(Value()), from, height)
    {
      hide Matured, Unmatured, Sum, Amounts;
      var queue := unbonding;
      unbonding := [];
      var total: nat, remaining: seq<Unbonding> := 0, [];
      assert queue[0..] == queue && remaining + Unmatured(queue, from, height) == Unmatured(queue, from, height);
      for i := 0 to |queue|
        invariant Value() == old(Value()).(unbonding := [])
        invariant Sum(Amounts(Matured(queue, from, height))) == total + Sum(Amounts(Matured(queue[i..], from, height)))
        invariant Unmatured(queue, from, height) == remaining + Unmatured(queue[i..], from, height)
        invariant total < U128_LIMIT
      {
        NextEntry(queue[i..], from, height);
        assert queue[i..][1..] == queue[i + 1..];
        if Mature(queue[i], from, height) {
          if total + queue[i].amount >= U128_LIMIT { return false; }
          total := total + queue[i].amount;
        } else {
          remaining := remaining + [queue[i]];
        }
      }
      NoMoreEntries(from, height);
      assert queue[|queue|..] == [];
      if total == 0 { return false; }
      unbonding := remaining;
      balances := balances[from := Get(balances, from) + total];
      return true;
    }
  }

  /** The first listed member is the least. */
  lemma LeastOwned(owned: set<Address>, keys: seq<Address>, i: nat)
    requires i < |keys| && keys[i] in owned && forall j :: 0 <= j < i ==> keys[j] !in owned
    requires (forall a :: a in owned ==> a in keys) && forall m, n :: 0 <= m < n < |keys| ==> keys[m] < keys[n]
    ensures LeastOf(owned) == keys[i]
  {
    var m := LeastOf(owned);
    var n :| 0 <= n < |keys| && keys[n] == m;
  }

  /** One step through the queue. */
  lemma NextEntry(queue: seq<Unbonding>, from: Address, height: nat)
    requires queue != []
    ensures var e, rest := queue[0], queue[1..];
      && Sum(Amounts(Matured(queue, from, height)))
         == (if Mature(e, from, height) then e.amount else 0) + Sum(Amounts(Matured(rest, from, height)))
      && Unmatured(queue, from, height) == (if Mature(e, from, height) then [] else [e]) + Unmatured(rest, from, height)
  {
    FirstEntry(queue[0], Matured(queue[1..], from, height));
    assert [] + Matured(queue[1..], from, height) == Matured(queue[1..], from, height);
  }

  lemma NoMoreEntries(from: Address, height: nat)
    ensures Matured([], from, height) == [] && Unmatured([], from, height) == [] && Sum(Amounts([])) == 0
  {
  }

  /** The next miner of a list, qualified or not. */
  lemma QualifiedStep(miners: map<Address, Miner>, addrs: seq<Address>, i: nat, qs: seq<(Address, nat)>)
    requires i < |addrs| && forall a :: a in addrs ==> a in miners
    ensures var w := MiningWeight(miners[addrs[i]]);
      qs + Qualified(miners, addrs[i..])
      == (if w > 0 then qs + [(addrs[i], w)] else qs) + Qualified(miners, addrs[i + 1..])
  {
    hide MiningWeight;
    assert addrs[i..][0] == addrs[i] && addrs[i..][1..] == addrs[i + 1..];
    assert [] + Qualified(miners, addrs[i + 1..]) == Qualified(miners, addrs[i + 1..]);
  }

  lemma ActiveStep(miners: map<Address, Miner>, addrs: seq<Address>, i: nat, active: seq<(Address, nat)>)
    requires i < |addrs| && forall a :: a in addrs ==> a in miners
    ensures var m := miners[addrs[i]];
      active + ActiveMiners(miners, addrs[i..])
      == (if m.active then active + [(addrs[i], m.reputation)] else active) + ActiveMiners(miners, addrs[i + 1..])
  {
    assert addrs[i..][0] == addrs[i] && addrs[i..][1..] == addrs[i + 1..];
    assert [] + ActiveMiners(miners, addrs[i + 1..]) == ActiveMiners(miners, addrs[i + 1..]);
  }

  lemma NobodyLeft(miners: map<Address, Miner>, qs: seq<(Address, nat)>)
    ensures qs + Qualified(miners, []) == qs && qs + ActiveMiners(miners, []) == qs
  {
  }

  ghost predicate Sharing(reward: nat, vs: seq<(Address, nat)>, done: nat, distributed: nat, total: nat) {
    InShare(reward, done, distributed, total) && done + Sum(Weights(vs)) == total
  }

  /** The shares still to be handed out. */
  ghost function Rest(reward: nat, vs: seq<(Address, nat)>, done: nat, distributed: nat, total: nat): (r: seq<nat>)
    requires Sharing(reward, vs, done, distributed, total)
    ensures |r| == |vs|
  {
    Shares(reward, Weights(vs), done, distributed, total)
  }

  /** The next share: proportional, or for the last entry what is left. */
  method TakeShare(reward: nat, vs: seq<(Address, nat)>, distributed: nat, total: nat, ghost done: nat)
    returns (share: nat, ghost next: nat)
    requires vs != [] && Sharing(reward, vs, done, distributed, total)
    ensures Sharing(reward, vs[1..], next, distributed + share, total)
    ensures Rest(reward, vs, done, distributed, total) == [share] + Rest(reward, vs[1..], next, distributed + share, total)
  {
    FirstOfRest(reward, vs, done, distributed, total);
    hide Shares, InShare;
    if |vs| == 1 {
      share, next := reward - distributed, total;
    } else {
      share, next := reward * vs[0].1 / total, done + vs[0].1;
    }
  }

  lemma FirstOfRest(reward: nat, vs: seq<(Address, nat)>, done: nat, distributed: nat, total: nat)
    requires vs != [] && Sharing(reward, vs, done, distributed, total)
    ensures |vs| == 1 ==>
      && distributed <= reward && Sharing(reward, vs[1..], total, reward, total)
      && Rest(reward, vs, done, distributed, total) == [reward - distributed] + Rest(reward, vs[1..], total, reward, total)
    ensures |vs| > 1 ==> var share, next := reward * vs[0].1 / total, done + vs[0].1;
      share >= 0 && Sharing(reward, vs[1..], next, distributed + share, total)
      && Rest(reward, vs, done, distributed, total) == [share] + Rest(reward, vs[1..], next, distributed + share, total)
  {
    assert Weights(vs)[0] == vs[0].1 && Weights(vs)[1..] == Weights(vs[1..]);
    NeverTooMuch(reward, done, distributed, total);
    if |vs| == 1 {
      FullShare(reward, total);
      assert vs[1..] == [];
    } else {
      OneMoreShare(reward, vs[0].1, done, distributed, total);
      hide InShare;
    }
  }

  /** Payments read delegations and commissions only. */
  lemma OwnersOnly(t: Treasury, u: Treasury, b: map<Address, nat>, a: Address, x: nat)
    requires t.delegations == u.delegations && t.commissions == u.commissions
    ensures PaidThrough(t, b, a, x) == PaidThrough(u, b, a, x)
  {
  }

  lemma {:induction false} OwnersOnlyEach(t: Treasury, u: Treasury, b: map<Address, nat>, vs: seq<(Address, nat)>, shares: seq<nat>)
    requires t.delegations == u.delegations && t.commissions == u.commissions && |vs| == |shares|
    ensures PayEach(t, b, vs, shares) == PayEach(u, b, vs, shares)
    decreases |vs|
  {
    if vs != [] {
      OwnersOnly(t, u, b, vs[0].0, shares[0]);
      OwnersOnlyEach(t, u, PaidThrough(t, b, vs[0].0, shares[0]), vs[1..], shares[1..]);
    }
  }

  /** Everything handed out for the whole weight. */
  lemma FullShare(reward: nat, total: nat)
    requires total > 0
    ensures InShare(reward, total, reward, total)
  {
  }
}
