/** Block, fee and mining rewards: how tokens move between the pool, validators and miners. */
module Rewards {
  import opened Common
  import opened ConsensusTypes

  const NODE_INCENTIVE_POOL: Address := 0x01_00000000_00000000_00000000_00000000_00000000_00000000_00000000_000000
  const ECOSYSTEM_FUND: Address := 0x02_00000000_00000000_00000000_00000000_00000000_00000000_00000000_000000
  const MINING_UPGRADE_HEIGHT: nat := 2_000
  const HEARTBEAT_V2_HEIGHT: nat := 225_900
  const VALIDATOR_REWARD_BPS: nat := 6_500
  const MINING_REWARD_BPS: nat := 3_500
  const HALVING_PERIOD: nat := 2 * 10_512_000
  const MINER_GRACE_BLOCKS: nat := 2_000
  const MINER_GRACE_EPOCHS: nat := 6
  const MINER_MIN_UPTIME_FOR_REWARD: nat := 6
  const REPUTATION_DECAY_BPS: nat := 100
  const REPUTATION_NEWCOMER_BPS: nat := 2_000
  const REPUTATION_ESTABLISHED_BPS: nat := 5_000
  const REPUTATION_VETERAN_BPS: nat := 10_000
  const BLOCKS_7_DAYS: nat := 201_600
  const BLOCKS_30_DAYS: nat := 864_000
  const DEFAULT_COMMISSION: Bps := 8_000

  /** Commissions above 10000 basis points are refused when they are set. */
  type Bps = n: nat | n <= 10_000

  datatype Miner = Miner(
    registeredAt: nat, lastHeartbeat: nat, active: bool, reputation: nat,
    pending: nat,          // mining reward awaiting the next check-in...
    pendingEpoch: nat,     // ...and the epoch it was booked in
    attendance: nat, misses: nat, lastCheckin: nat)

  type Positive = n: nat | n > 0 witness 1

  /** Withdrawn stake that its owner may claim from a height on. */
  datatype Unbonding = Unbonding(owner: Address, amount: Positive, release: nat)

  /** The part of the world state that rewards and staking read and write. */
  datatype Treasury = Treasury(
    balances: map<Address, nat>,
    stakes: map<Address, nat>,
    unbonding: seq<Unbonding>,
    bucket: nat,
    miners: map<Address, Miner>,
    delegations: map<Address, Address>,
    commissions: map<Address, Bps>)

  function Pendings(miners: map<Address, Miner>): map<Address, nat> {
    map m | m in miners :: miners[m].pending
  }

  function Checkins(miners: map<Address, Miner>): map<Address, nat> {
    map m | m in miners :: miners[m].lastCheckin
  }

  function Amounts(queue: seq<Unbonding>): (r: seq<nat>)
    ensures |r| == |queue|
  {
    if queue == [] then [] else [queue[0].amount] + Amounts(queue[1..])
  }

  /** Balances, stakes, unbonding entries, the epoch bucket and all pending mining rewards. */
  ghost function Supply(t: Treasury): nat {
    Total(t.balances) + Total(t.stakes) + Sum(Amounts(t.unbonding)) + t.bucket + Total(Pendings(t.miners))
  }

  method TotalSupply(t: Treasury) returns (supply: nat)
    ensures supply == Supply(t)
  {
    var balances := SumValues(t.balances);
    var stakes := SumValues(t.stakes);
    var unbonding := 0;
    for i := 0 to |t.unbonding|
      invariant Sum(Amounts(t.unbonding)) == unbonding + Sum(Amounts(t.unbonding[i..]))
    {
      assert t.unbonding[i..][1..] == t.unbonding[i + 1..];
      unbonding := unbonding + t.unbonding[i].amount;
    }
    var pending := SumValues(Pendings(t.miners));
    return balances + stakes + unbonding + (t.bucket + pending);
  }

  // ---------------------------------------------------------------- amounts

  function RewardPerBlock(height: nat): nat {
    if height < MINING_UPGRADE_HEIGHT then 10_000_000_000   // the later years of this schedule begin after the upgrade
    else
      var period := (height - MINING_UPGRADE_HEIGHT) / HALVING_PERIOD;
      if period == 0 then 8_000_000_000
      else if period == 1 then 4_000_000_000
      else if period == 2 then 2_000_000_000
      else if period == 3 then 1_000_000_000
      else if period == 4 then 500_000_000
      else 250_000_000
  }

  function Min(a: nat, b: nat): nat {
    if a <= b then a else b
  }

  /** What validators get for a block, at most what the pool holds. */
  function ValidatorReward(t: Treasury, height: nat): nat {
    var base := RewardPerBlock(height);
    Min(if height >= MINING_UPGRADE_HEIGHT then base * VALIDATOR_REWARD_BPS / 10_000 else base,
          Get(t.balances, NODE_INCENTIVE_POOL))
  }

  function MinersReward(t: Treasury, height: nat): nat {
    Min(RewardPerBlock(height) * MINING_REWARD_BPS / 10_000, Get(t.balances, NODE_INCENTIVE_POOL))
  }

  function Weights(vs: seq<(Address, nat)>): (r: seq<nat>)
    ensures |r| == |vs|
  {
    if vs == [] then [] else [vs[0].1] + Weights(vs[1..])
  }

  /** What may still be handed out after `done` of the `total` weight got `distributed`. */
  predicate InShare(reward: nat, done: nat, distributed: nat, total: nat) {
    0 < total && done <= total && distributed * total <= reward * done
  }

  /** `reward * weight / total` each, and the last one takes what is left. */
  function Shares(reward: nat, ws: seq<nat>, done: nat, distributed: nat, total: nat): (r: seq<nat>)
    requires InShare(reward, done, distributed, total) && done + Sum(ws) == total
    ensures |r| == |ws| && distributed <= reward
    ensures ws != [] ==> distributed + Sum(r) == reward
    decreases |ws|
  {
    NeverTooMuch(reward, done, distributed, total);
    if |ws| <= 1 then
      if ws == [] then [] else LastShare(reward - distributed)
    else
      var share := reward * ws[0] / total;
      OneMoreShare(reward, ws[0], done, distributed, total);
      [share] + Shares(reward, ws[1..], done + ws[0], distributed + share, total)
  }

  function LastShare(x: nat): (r: seq<nat>)
    ensures |r| == 1 && Sum(r) == x
  {
    assert [x][1..] == [];
    [x]
  }

  lemma NeverTooMuch(reward: nat, done: nat, distributed: nat, total: nat)
    requires InShare(reward, done, distributed, total)
    ensures distributed <= reward
  {
    assert reward * done <= reward * total;
    assert distributed >= reward + 1 ==> distributed * total >= (reward + 1) * total;
    assert (reward + 1) * total == reward * total + total;
  }

  lemma OneMoreShare(reward: nat, w: nat, done: nat, distributed: nat, total: nat)
    requires InShare(reward, done, distributed, total) && done + w <= total
    ensures 0 <= reward * w / total && InShare(reward, done + w, distributed + reward * w / total, total)
  {
    var share := reward * w / total;
    assert share * total <= reward * w;
    assert (distributed + share) * total == distributed * total + share * total;
    assert reward * (done + w) == reward * done + reward * w;
  }

  // ---------------------------------------------------------------- payments

  /** A zero amount leaves no entry behind. */
  function Paid(b: map<Address, nat>, a: Address, x: nat): map<Address, nat> {
    if x == 0 then b else b[a := Get(b, a) + x]
  }

  /** Straight to the validator, or split with the owner of its delegated stake by commission. */
  function PaidThrough(t: Treasury, b: map<Address, nat>, a: Address, x: nat): map<Address, nat> {
    var owner := if a in t.delegations then t.delegations[a] else a;
    if owner == a then Paid(b, a, x)
    else
      var commission := if a in t.commissions then t.commissions[a] else DEFAULT_COMMISSION;
      var own := x * commission / 10_000;
      CommissionWithin(x, commission);
      Paid(Paid(b, a, own), owner, x - own)
  }

  lemma CommissionWithin(x: nat, c: Bps)
    ensures 0 <= x * c / 10_000 <= x
  {
    assert x * c <= x * 10_000;
  }

  function PayEach(t: Treasury, b: map<Address, nat>, vs: seq<(Address, nat)>, shares: seq<nat>): map<Address, nat>
    requires |vs| == |shares|
    decreases |vs|
  {
    if vs == [] then b else PayEach(t, PaidThrough(t, b, vs[0].0, shares[0]), vs[1..], shares[1..])
  }

  function PayMiners(b: map<Address, nat>, vs: seq<(Address, nat)>, shares: seq<nat>): map<Address, nat>
    requires |vs| == |shares|
    decreases |vs|
  {
    if vs == [] then b else PayMiners(Paid(b, vs[0].0, shares[0]), vs[1..], shares[1..])
  }

  function FromPool(b: map<Address, nat>, x: nat): map<Address, nat>
    requires x <= Get(b, NODE_INCENTIVE_POOL)
  {
    b[NODE_INCENTIVE_POOL := Get(b, NODE_INCENTIVE_POOL) - x]
  }

  function BlockReward(t: Treasury, validators: seq<(Address, nat)>, height: nat): Treasury {
    var reward, total := ValidatorReward(t, height), Sum(Weights(validators));
    if validators == [] || reward == 0 || total == 0 then t
    else t.(balances := PayEach(t, FromPool(t.balances, reward), validators, Shares(reward, Weights(validators), 0, 0, total)))
  }

  /** Half to the proposer, a fifth to the ecosystem fund, the rest to nobody. */
  function FeesDistributed(t: Treasury, proposer: Address, fees: nat): Treasury {
    t.(balances := Paid(PaidThrough(t, t.balances, proposer, fees * 50 / 100), ECOSYSTEM_FUND, fees * 20 / 100))
  }

  // ---------------------------------------------------------------- mining

  function ActiveMiners(miners: map<Address, Miner>, addrs: seq<Address>): seq<(Address, nat)>
    requires forall a :: a in addrs ==> a in miners
  {
    if addrs == [] then []
    else (if miners[addrs[0]].active then [(addrs[0], miners[addrs[0]].reputation)] else []) + ActiveMiners(miners, addrs[1..])
  }

  /** Before the epoch scheme, active miners are paid at once. */
  function DirectMiningReward(t: Treasury, height: nat): Treasury {
    var active, reward := ActiveMiners(t.miners, Ascending(t.miners.Keys)), MinersReward(t, height);
    var total := Sum(Weights(active));
    if height < MINING_UPGRADE_HEIGHT || active == [] || reward == 0 || total == 0 then t
    else t.(balances := PayMiners(FromPool(t.balances, reward), active, Shares(reward, Weights(active), 0, 0, total)))
  }

  /** Since then the miners' part goes into the bucket of the epoch. */
  function MiningReward(t: Treasury, height: nat): Treasury {
    if height < HEARTBEAT_V2_HEIGHT then DirectMiningReward(t, height)
    else
      var reward := MinersReward(t, height);
      if reward == 0 then t else t.(balances := FromPool(t.balances, reward), bucket := t.bucket + reward)
  }

  function ActivityUpdated(t: Treasury, height: nat): Treasury {
    if height >= HEARTBEAT_V2_HEIGHT then t
    else t.(miners := map m | m in t.miners ::
      t.miners[m].(active := t.miners[m].active && t.miners[m].lastHeartbeat + MINER_GRACE_BLOCKS >= height))
  }

  function Migrated(t: Treasury): Treasury {
    t.(miners := map m | m in t.miners :: t.miners[m].(lastCheckin := t.miners[m].lastHeartbeat / MINER_EPOCH_LENGTH))
  }

  // ---------------------------------------------------------------- epoch boundary

  function Normalised(m: Miner): Miner {
    m.(pending := 0, pendingEpoch := 0, attendance := 0, misses := 0)
  }

  predicate CheckedIn(m: Miner, height: nat)
    requires height >= MINER_EPOCH_LENGTH
  {
    (if height >= CHECKIN_V3_HEIGHT then m.lastCheckin else m.lastHeartbeat / MINER_EPOCH_LENGTH) == height / MINER_EPOCH_LENGTH - 1
  }

  function Max(a: nat, b: nat): nat {
    if a >= b then a else b
  }

  /** Attendance, reputation and activity after an epoch; nothing stays pending. */
  function SettledMiner(m: Miner, height: nat): Miner
    requires height >= MINER_EPOCH_LENGTH
  {
    var epoch := height / MINER_EPOCH_LENGTH;
    if CheckedIn(m, height) then
      var age := if height >= m.registeredAt then height - m.registeredAt else 0;
      m.(active := true, misses := 0, attendance := m.attendance * 2 % 65536 + 1,
         reputation := if age >= BLOCKS_30_DAYS then Max(m.reputation, REPUTATION_VETERAN_BPS)
                       else if age >= BLOCKS_7_DAYS then Max(m.reputation, REPUTATION_ESTABLISHED_BPS)
                       else m.reputation,
         pending := 0, pendingEpoch := epoch)
    else
      var misses := if m.misses < 65535 then m.misses + 1 else m.misses;
      m.(active := m.active && misses < MINER_GRACE_EPOCHS, misses := misses, attendance := m.attendance * 2 % 65536,
         reputation := Max(m.reputation * (10_000 - REPUTATION_DECAY_BPS) / 10_000 % 65536, REPUTATION_NEWCOMER_BPS),
         pending := 0, pendingEpoch := epoch)
  }

  /** The pending reward of a miner that checked in is paid if it was booked in the settled epoch; without a check-in it returns to the pool. */
  function PendingPaid(b: map<Address, nat>, a: Address, m: Miner, height: nat): map<Address, nat>
    requires height >= MINER_EPOCH_LENGTH
  {
    if !CheckedIn(m, height) then Paid(b, NODE_INCENTIVE_POOL, m.pending)
    else if m.pendingEpoch == height / MINER_EPOCH_LENGTH - 1 then Paid(b, a, m.pending)
    else b
  }

  function SettleEach(b: map<Address, nat>, miners: map<Address, Miner>, addrs: seq<Address>, height: nat)
    : (map<Address, nat>, map<Address, Miner>)
    requires height >= MINER_EPOCH_LENGTH && forall a :: a in addrs ==> a in miners
    decreases |addrs|
  {
    if addrs == [] then (b, miners)
    else
      var m := miners[addrs[0]];
      SettleEach(PendingPaid(b, addrs[0], m, height), miners[addrs[0] := SettledMiner(m, height)], addrs[1..], height)
  }

  /** Epochs attended among the last twelve. */
  function Attended(bits: nat, n: nat): nat {
    if n == 0 then 0 else bits % 2 + Attended(bits / 2, n - 1)
  }

  function UptimeMultiplier(count: nat): nat {
    if count == 12 then 100 else if 9 <= count <= 11 then 80 else if 6 <= count <= 8 then 50 else 0
  }

  function MiningWeight(m: Miner): nat {
    var count := Attended(m.attendance, 12);
    if !m.active || count < MINER_MIN_UPTIME_FOR_REWARD then 0 else m.reputation * UptimeMultiplier(count)
  }

  function Qualified(miners: map<Address, Miner>, addrs: seq<Address>): seq<(Address, nat)>
    requires forall a :: a in addrs ==> a in miners
  {
    if addrs == [] then []
    else (if MiningWeight(miners[addrs[0]]) > 0 then [(addrs[0], MiningWeight(miners[addrs[0]]))] else [])
         + Qualified(miners, addrs[1..])
  }

  function BookEach(miners: map<Address, Miner>, qs: seq<(Address, nat)>, shares: seq<nat>): map<Address, Miner>
    requires |qs| == |shares| && forall i :: 0 <= i < |qs| ==> qs[i].0 in miners
    decreases |qs|
  {
    if qs == [] then miners
    else
      var a := qs[0].0;
      BookEach(if shares[0] > 0 then miners[a := miners[a].(pending := shares[0])] else miners, qs[1..], shares[1..])
  }

  lemma {:induction false} QualifiedAreListed(miners: map<Address, Miner>, addrs: seq<Address>)
    requires forall a :: a in addrs ==> a in miners
    ensures forall i :: 0 <= i < |Qualified(miners, addrs)| ==>
      Qualified(miners, addrs)[i].0 in addrs && Qualified(miners, addrs)[i].1 > 0
    ensures Qualified(miners, addrs) != [] ==> Sum(Weights(Qualified(miners, addrs))) > 0
  {
    if addrs != [] {
      QualifiedAreListed(miners, addrs[1..]);
      var rest, q := Qualified(miners, addrs[1..]), Qualified(miners, addrs);
      assert q == rest || (q != [] && q[1..] == rest);
    }
  }

  /** The bucket is booked for the qualified miners; it returns to the pool when there are none. */
  function BucketBooked(t: Treasury): Treasury {
    var qs := Qualified(t.miners, Ascending(t.miners.Keys));
    QualifiedAreListed(t.miners, Ascending(t.miners.Keys));
    if t.bucket == 0 then t
    else if qs == [] then t.(balances := Paid(t.balances, NODE_INCENTIVE_POOL, t.bucket), bucket := 0)
    else t.(miners := BookEach(t.miners, qs, Shares(t.bucket, Weights(qs), 0, 0, Sum(Weights(qs)))), bucket := 0)
  }

  /** Boundaries are settled since the epoch scheme began. */
  predicate Settles(height: nat) {
    height >= HEARTBEAT_V2_HEIGHT && height % MINER_EPOCH_LENGTH == 0
  }

  /** A boundary clears the check-ins of the running epoch, which only guard against a second heartbeat. */
  function CheckinsAfter(epochCheckins: set<Address>, height: nat): set<Address> {
    if Settles(height) then {} else epochCheckins
  }

  function EpochBoundary(t: Treasury, height: nat): Treasury {
    if !Settles(height) then t
    else if height == HEARTBEAT_V2_HEIGHT then
      t.(miners := map m | m in t.miners :: Normalised(t.miners[m]),
         balances := Paid(t.balances, NODE_INCENTIVE_POOL, t.bucket), bucket := 0)
    else
      var (balances, miners) := SettleEach(t.balances, t.miners, Ascending(t.miners.Keys), height);
      SettlingKeepsKeys(t.balances, t.miners, Ascending(t.miners.Keys), height);
      BucketBooked(t.(balances := balances, miners := miners))
  }

  lemma {:induction false} SettlingKeepsKeys(b: map<Address, nat>, miners: map<Address, Miner>, addrs: seq<Address>, height: nat)
    requires height >= MINER_EPOCH_LENGTH && forall a :: a in addrs ==> a in miners
    ensures SettleEach(b, miners, addrs, height).1.Keys == miners.Keys
    decreases |addrs|
  {
    if addrs != [] {
      var m := miners[addrs[0]];
      SettlingKeepsKeys(PendingPaid(b, addrs[0], m, height), miners[addrs[0] := SettledMiner(m, height)], addrs[1..], height);
    }
  }

  // ---------------------------------------------------------------- conservation

  lemma PaidAdds(b: map<Address, nat>, a: Address, x: nat)
    ensures Total(Paid(b, a, x)) == Total(b) + x
  {
    TotalUpdate(b, a, Get(b, a) + x);
  }

  lemma PaidThroughAdds(t: Treasury, b: map<Address, nat>, a: Address, x: nat)
    ensures Total(PaidThrough(t, b, a, x)) == Total(b) + x
  {
    PaidAdds(b, a, x);
    var owner := if a in t.delegations then t.delegations[a] else a;
    if owner != a {
      var commission := if a in t.commissions then t.commissions[a] else DEFAULT_COMMISSION;
      CommissionWithin(x, commission);
      PaidAdds(b, a, x * commission / 10_000);
      PaidAdds(Paid(b, a, x * commission / 10_000), owner, x - x * commission / 10_000);
    }
  }

  lemma {:induction false} PayEachAdds(t: Treasury, b: map<Address, nat>, vs: seq<(Address, nat)>, shares: seq<nat>)
    requires |vs| == |shares|
    ensures Total(PayEach(t, b, vs, shares)) == Total(b) + Sum(shares)
    decreases |vs|
  {
    if vs != [] {
      PaidThroughAdds(t, b, vs[0].0, shares[0]);
      PayEachAdds(t, PaidThrough(t, b, vs[0].0, shares[0]), vs[1..], shares[1..]);
    }
  }

  lemma {:induction false} PayMinersAdds(b: map<Address, nat>, vs: seq<(Address, nat)>, shares: seq<nat>)
    requires |vs| == |shares|
    ensures Total(PayMiners(b, vs, shares)) == Total(b) + Sum(shares)
    decreases |vs|
  {
    if vs != [] {
      PaidAdds(b, vs[0].0, shares[0]);
      PayMinersAdds(Paid(b, vs[0].0, shares[0]), vs[1..], shares[1..]);
    }
  }

  lemma FromPoolTakes(b: map<Address, nat>, x: nat)
    requires x <= Get(b, NODE_INCENTIVE_POOL)
    ensures Total(FromPool(b, x)) + x == Total(b)
  {
    TotalUpdate(b, NODE_INCENTIVE_POOL, Get(b, NODE_INCENTIVE_POOL) - x);
    TotalBounds(b, NODE_INCENTIVE_POOL);
  }

  /** A block reward only moves tokens, whatever the weights: the rounding goes to the last validator. */
  lemma BlockRewardConserves(t: Treasury, validators: seq<(Address, nat)>, height: nat)
    ensures Supply(BlockReward(t, validators, height)) == Supply(t)
  {
    var reward, total := ValidatorReward(t, height), Sum(Weights(validators));
    if validators != [] && reward > 0 && total > 0 {
      FromPoolTakes(t.balances, reward);
      PayEachAdds(t, FromPool(t.balances, reward), validators, Shares(reward, Weights(validators), 0, 0, total));
    }
  }

  /** What returns to circulation of the fees: the rounded-down half and fifth. */
  lemma FeesReturn(t: Treasury, proposer: Address, fees: nat)
    ensures Supply(FeesDistributed(t, proposer, fees)) == Supply(t) + fees * 50 / 100 + fees * 20 / 100
  {
    PaidThroughAdds(t, t.balances, proposer, fees * 50 / 100);
    PaidAdds(PaidThrough(t, t.balances, proposer, fees * 50 / 100), ECOSYSTEM_FUND, fees * 20 / 100);
  }

  lemma MiningRewardConserves(t: Treasury, height: nat)
    ensures Supply(MiningReward(t, height)) == Supply(t)
  {
    var reward := MinersReward(t, height);
    FromPoolTakes(t.balances, reward);
    if height < HEARTBEAT_V2_HEIGHT {
      var active := ActiveMiners(t.miners, Ascending(t.miners.Keys));
      var total := Sum(Weights(active));
      if height >= MINING_UPGRADE_HEIGHT && active != [] && reward > 0 && total > 0 {
        PayMinersAdds(FromPool(t.balances, reward), active, Shares(reward, Weights(active), 0, 0, total));
      }
    }
  }

  predicate SameStakes(t: Treasury, u: Treasury) {
    u.stakes == t.stakes && u.delegations == t.delegations
  }

  /** Rewards leave miners, stakes and delegations alone; before the epoch scheme they leave the bucket alone, too. */
  lemma RewardsKeepMiners(t: Treasury, validators: seq<(Address, nat)>, proposer: Address, fees: nat, height: nat)
    ensures var u := BlockReward(t, validators, height); u.miners == t.miners && SameStakes(t, u) && u.bucket == t.bucket
    ensures var u := FeesDistributed(t, proposer, fees); u.miners == t.miners && SameStakes(t, u) && u.bucket == t.bucket
    ensures var u := MiningReward(t, height);
      u.miners == t.miners && SameStakes(t, u) && (height < HEARTBEAT_V2_HEIGHT ==> u.bucket == t.bucket)
  {
  }

  lemma ActivityConserves(t: Treasury, height: nat)
    ensures Supply(ActivityUpdated(t, height)) == Supply(t)
    ensures Supply(Migrated(t)) == Supply(t)
  {
    assert Pendings(ActivityUpdated(t, height).miners) == Pendings(t.miners);
    assert Pendings(Migrated(t).miners) == Pendings(t.miners);
  }

  // ---------------------------------------------------------------- the epoch boundary

  /** What a settlement takes out of circulation: a pending reward of a miner that did check in, booked in another epoch. */
  function Lost(m: Miner, height: nat): nat
    requires height >= MINER_EPOCH_LENGTH
  {
    if CheckedIn(m, height) && m.pendingEpoch != height / MINER_EPOCH_LENGTH - 1 then m.pending else 0
  }

  function LostOf(miners: map<Address, Miner>, addrs: seq<Address>, height: nat): nat
    requires height >= MINER_EPOCH_LENGTH && forall a :: a in addrs ==> a in miners
  {
    if addrs == [] then 0 else Lost(miners[addrs[0]], height) + LostOf(miners, addrs[1..], height)
  }

  lemma OneSettled(b: map<Address, nat>, miners: map<Address, Miner>, a: Address, height: nat)
    requires height >= MINER_EPOCH_LENGTH && a in miners
    ensures var m := miners[a];
      Total(PendingPaid(b, a, m, height)) + Total(Pendings(miners[a := SettledMiner(m, height)])) + Lost(m, height)
      == Total(b) + Total(Pendings(miners))
  {
    var m := miners[a];
    PaidAdds(b, a, m.pending);
    PaidAdds(b, NODE_INCENTIVE_POOL, m.pending);
    assert Pendings(miners[a := SettledMiner(m, height)]) == Pendings(miners)[a := 0];
    TotalUpdate(Pendings(miners), a, 0);
    TotalBounds(Pendings(miners), a);
  }

  lemma {:induction false} OthersLoseTheSame(miners: map<Address, Miner>, next: map<Address, Miner>, addrs: seq<Address>, height: nat)
    requires height >= MINER_EPOCH_LENGTH && forall a :: a in addrs ==> a in miners && a in next && miners[a] == next[a]
    ensures LostOf(miners, addrs, height) == LostOf(next, addrs, height)
  {
    if addrs != [] { OthersLoseTheSame(miners, next, addrs[1..], height); }
  }

  lemma {:induction false} SettlingConserves(b: map<Address, nat>, miners: map<Address, Miner>, addrs: seq<Address>, height: nat)
    requires height >= MINER_EPOCH_LENGTH && NoRepeats(addrs) && forall a :: a in addrs ==> a in miners
    ensures var (b', miners') := SettleEach(b, miners, addrs, height);
      Total(b') + Total(Pendings(miners')) + LostOf(miners, addrs, height) == Total(b) + Total(Pendings(miners))
    decreases |addrs|
  {
    if addrs != [] {
      var a, m := addrs[0], miners[addrs[0]];
      var next := miners[a := SettledMiner(m, height)];
      OneSettled(b, miners, a, height);
      SettlingConserves(PendingPaid(b, a, m, height), next, addrs[1..], height);
      OthersLoseTheSame(miners, next, addrs[1..], height);
    }
  }

  /** Every listed miner is settled, the others stay. */
  lemma {:induction false} SettlingSettles(b: map<Address, nat>, miners: map<Address, Miner>, addrs: seq<Address>, height: nat, a: Address)
    requires height >= MINER_EPOCH_LENGTH && NoRepeats(addrs) && a in miners && forall x :: x in addrs ==> x in miners
    ensures var r := SettleEach(b, miners, addrs, height).1;
      a in r && r[a] == if a in addrs then SettledMiner(miners[a], height) else miners[a]
    decreases |addrs|
  {
    if addrs != [] {
      var m := miners[addrs[0]];
      SettlingSettles(PendingPaid(b, addrs[0], m, height), miners[addrs[0] := SettledMiner(m, height)], addrs[1..], height, a);
    }
  }

  lemma {:induction false} QualifiedOnce(miners: map<Address, Miner>, addrs: seq<Address>)
    requires NoRepeats(addrs) && forall a :: a in addrs ==> a in miners
    ensures var qs := Qualified(miners, addrs);
      forall i, j :: 0 <= i < j < |qs| ==> qs[i].0 != qs[j].0
  {
    if addrs != [] {
      QualifiedOnce(miners, addrs[1..]);
      QualifiedAreListed(miners, addrs[1..]);
      var q, rest := Qualified(miners, addrs), Qualified(miners, addrs[1..]);
      if q != rest {
        forall i, j | 0 <= i < j < |q|
          ensures q[i].0 != q[j].0
        {
          assert q[j] == rest[j - 1];
          if i > 0 { assert q[i] == rest[i - 1]; }
        }
      } else {
        assert q == rest;
      }
    }
  }

  lemma {:induction false} BookingAdds(miners: map<Address, Miner>, qs: seq<(Address, nat)>, shares: seq<nat>)
    requires |qs| == |shares| && forall i :: 0 <= i < |qs| ==> qs[i].0 in miners && miners[qs[i].0].pending == 0
    requires forall i, j :: 0 <= i < j < |qs| ==> qs[i].0 != qs[j].0
    ensures Total(Pendings(BookEach(miners, qs, shares))) == Total(Pendings(miners)) + Sum(shares)
    decreases |qs|
  {
    if qs != [] {
      var a := qs[0].0;
      var next := if shares[0] > 0 then miners[a := miners[a].(pending := shares[0])] else miners;
      assert Pendings(next) == Pendings(miners)[a := shares[0]];
      TotalUpdate(Pendings(miners), a, shares[0]);
      BookingAdds(next, qs[1..], shares[1..]);
    }
  }

  lemma BucketConserves(t: Treasury)
    requires forall m :: m in t.miners ==> t.miners[m].pending == 0
    ensures Supply(BucketBooked(t)) == Supply(t)
  {
    var addrs := Ascending(t.miners.Keys);
    var qs := Qualified(t.miners, addrs);
    QualifiedAreListed(t.miners, addrs);
    QualifiedOnce(t.miners, addrs);
    PaidAdds(t.balances, NODE_INCENTIVE_POOL, t.bucket);
    if t.bucket > 0 && qs != [] {
      BookingAdds(t.miners, qs, Shares(t.bucket, Weights(qs), 0, 0, Sum(Weights(qs))));
    }
  }

  /** What a boundary takes out of circulation: nothing, or the misfiled rewards, or at activation all pending ones. */
  ghost function BoundaryLoss(t: Treasury, height: nat): nat {
    if height < HEARTBEAT_V2_HEIGHT || height % MINER_EPOCH_LENGTH != 0 then 0
    else if height == HEARTBEAT_V2_HEIGHT then Total(Pendings(t.miners))
    else LostOf(t.miners, Ascending(t.miners.Keys), height)
  }

  /** The exact effect of a boundary on the supply. */
  lemma BoundarySupply(t: Treasury, height: nat)
    ensures Supply(EpochBoundary(t, height)) + BoundaryLoss(t, height) == Supply(t)
  {
    if height >= HEARTBEAT_V2_HEIGHT && height % MINER_EPOCH_LENGTH == 0 {
      if height == HEARTBEAT_V2_HEIGHT {
        PaidAdds(t.balances, NODE_INCENTIVE_POOL, t.bucket);
        NothingPending(EpochBoundary(t, height).miners);
      } else {
        var addrs := Ascending(t.miners.Keys);
        var (b, miners) := SettleEach(t.balances, t.miners, addrs, height);
        SettlingConserves(t.balances, t.miners, addrs, height);
        SettlingKeepsKeys(t.balances, t.miners, addrs, height);
        forall m | m in miners
          ensures miners[m].pending == 0
        {
          SettlingSettles(t.balances, t.miners, addrs, height, m);
        }
        BucketConserves(t.(balances := b, miners := miners));
      }
    }
  }

  lemma {:induction false} NothingPending(miners: map<Address, Miner>)
    requires forall m :: m in miners ==> miners[m].pending == 0
    ensures Total(Pendings(miners)) == 0
  {
    TotalDropZeros(Pendings(miners), Pendings(miners).Keys);
    assert Pendings(miners) - Pendings(miners).Keys == map[];
  }

  // ---------------------------------------------------------------- bookings

  /** Pending rewards are those of the epoch that ends at the next boundary from `height` on; before the scheme there are none. */
  ghost predicate Booked(t: Treasury, height: nat) {
    forall m :: m in t.miners && t.miners[m].pending > 0 ==>
      height > HEARTBEAT_V2_HEIGHT && t.miners[m].pendingEpoch == (height - 1) / MINER_EPOCH_LENGTH
  }

  /** Miners keep their pending rewards, new ones have none, and the bucket stays. */
  ghost predicate KeepsBookings(before: Treasury, after: Treasury) {
    && after.bucket == before.bucket
    && forall m :: m in after.miners && after.miners[m].pending > 0 ==>
      m in before.miners && before.miners[m].pending == after.miners[m].pending
      && before.miners[m].pendingEpoch == after.miners[m].pendingEpoch
  }

  lemma {:induction false} NoLosses(miners: map<Address, Miner>, addrs: seq<Address>, height: nat)
    requires height >= MINER_EPOCH_LENGTH && forall a :: a in addrs ==> a in miners && Lost(miners[a], height) == 0
    ensures LostOf(miners, addrs, height) == 0
  {
    if addrs != [] { NoLosses(miners, addrs[1..], height); }
  }

  /** With every reward booked in time, a boundary conserves the supply. */
  lemma BoundaryConserves(t: Treasury, height: nat)
    requires Booked(t, height)
    ensures Supply(EpochBoundary(t, height)) == Supply(t)
  {
    BoundarySupply(t, height);
    if height >= HEARTBEAT_V2_HEIGHT && height % MINER_EPOCH_LENGTH == 0 {
      if height == HEARTBEAT_V2_HEIGHT {
        NothingPending(t.miners);
      } else {
        BookedLosesNothing(t, height);
        NoLosses(t.miners, Ascending(t.miners.Keys), height);
      }
    }
  }

  lemma {:induction false} BookingKeeps(miners: map<Address, Miner>, qs: seq<(Address, nat)>, shares: seq<nat>, a: Address)
    requires |qs| == |shares| && a in miners && forall i :: 0 <= i < |qs| ==> qs[i].0 in miners
    ensures var r := BookEach(miners, qs, shares); a in r && r[a] == miners[a].(pending := r[a].pending)
    decreases |qs|
  {
    BookingKeepsKeys(miners, qs, shares);
    if qs != [] {
      var x := qs[0].0;
      BookingKeeps(if shares[0] > 0 then miners[x := miners[x].(pending := shares[0])] else miners, qs[1..], shares[1..], a);
    }
  }

  lemma {:induction false} BookingKeepsKeys(miners: map<Address, Miner>, qs: seq<(Address, nat)>, shares: seq<nat>)
    requires |qs| == |shares| && forall i :: 0 <= i < |qs| ==> qs[i].0 in miners
    ensures BookEach(miners, qs, shares).Keys == miners.Keys
    decreases |qs|
  {
    if qs != [] {
      var x := qs[0].0;
      BookingKeepsKeys(if shares[0] > 0 then miners[x := miners[x].(pending := shares[0])] else miners, qs[1..], shares[1..]);
    }
  }

  /** Booking the bucket changes nothing of a miner but its pending reward. */
  lemma BucketMiner(t: Treasury, a: Address)
    ensures BucketBooked(t).miners.Keys == t.miners.Keys && SameStakes(t, BucketBooked(t))
    ensures a in t.miners ==> BucketBooked(t).miners[a] == t.miners[a].(pending := BucketBooked(t).miners[a].pending)
  {
    hide BookEach, Qualified, Shares, MiningWeight, Paid, Ascending, Sum, Weights;
    var qs := Qualified(t.miners, Ascending(t.miners.Keys));
    QualifiedAreListed(t.miners, Ascending(t.miners.Keys));
    if t.bucket > 0 && qs != [] {
      var shares := Shares(t.bucket, Weights(qs), 0, 0, Sum(Weights(qs)));
      BookingKeepsKeys(t.miners, qs, shares);
      if a in t.miners { BookingKeeps(t.miners, qs, shares, a); }
    }
  }

  /** What a boundary leaves of one miner: settled, with whatever is booked for it anew. */
  lemma BoundaryMiner(t: Treasury, height: nat, a: Address)
    requires a in t.miners && height > HEARTBEAT_V2_HEIGHT && height % MINER_EPOCH_LENGTH == 0
    ensures var r := EpochBoundary(t, height).miners;
      a in r && r[a] == SettledMiner(t.miners[a], height).(pending := r[a].pending)
  {
    hide BucketBooked, SettledMiner, SettleEach;
    var addrs := Ascending(t.miners.Keys);
    var (b, miners) := SettleEach(t.balances, t.miners, addrs, height);
    SettlingKeepsKeys(t.balances, t.miners, addrs, height);
    SettlingSettles(t.balances, t.miners, addrs, height, a);
    BucketMiner(t.(balances := b, miners := miners), a);
  }

  lemma BoundaryKeys(t: Treasury, height: nat)
    ensures EpochBoundary(t, height).miners.Keys == t.miners.Keys && SameStakes(t, EpochBoundary(t, height))
  {
    hide BucketBooked, SettledMiner, SettleEach;
    if height > HEARTBEAT_V2_HEIGHT && height % MINER_EPOCH_LENGTH == 0 {
      var addrs := Ascending(t.miners.Keys);
      var (b, miners) := SettleEach(t.balances, t.miners, addrs, height);
      SettlingKeepsKeys(t.balances, t.miners, addrs, height);
      BucketMiner(t.(balances := b, miners := miners), 0);
    }
  }

  lemma BoundaryMinerCheckin(t: Treasury, height: nat, a: Address)
    requires a in t.miners
    ensures a in EpochBoundary(t, height).miners && EpochBoundary(t, height).miners[a].lastCheckin == t.miners[a].lastCheckin
  {
    if height > HEARTBEAT_V2_HEIGHT && height % MINER_EPOCH_LENGTH == 0 {
      BoundaryMiner(t, height, a);
      hide EpochBoundary;
    }
  }

  /** Neither registrations, nor last check-ins, nor stakes and delegations change at a boundary. */
  lemma BoundaryKeepsMiners(t: Treasury, height: nat)
    ensures Checkins(EpochBoundary(t, height).miners) == Checkins(t.miners)
    ensures SameStakes(t, EpochBoundary(t, height))
  {
    hide EpochBoundary;
    BoundaryKeys(t, height);
    forall a | a in t.miners
      ensures EpochBoundary(t, height).miners[a].lastCheckin == t.miners[a].lastCheckin
    {
      BoundaryMinerCheckin(t, height, a);
    }
  }

  lemma NoBoundaryBefore(t: Treasury, height: nat)
    requires height < HEARTBEAT_V2_HEIGHT
    ensures EpochBoundary(t, height) == t
  {
  }

  /** After the block at `height`, whether it is a boundary or not, rewards are booked for the next one. */
  lemma BoundaryBooks(t: Treasury, height: nat)
    requires Booked(t, height)
    ensures Booked(EpochBoundary(t, height), height + 1)
  {
    if height % MINER_EPOCH_LENGTH != 0 {
      BookedBetween(t, height);
    } else if height > HEARTBEAT_V2_HEIGHT {
      SettledBoundaryBooks(t, height);
    }
  }

  lemma SettledBoundaryBooks(t: Treasury, height: nat)
    requires height > HEARTBEAT_V2_HEIGHT && height % MINER_EPOCH_LENGTH == 0
    ensures Booked(EpochBoundary(t, height), height + 1)
  {
    BoundaryKeys(t, height);
    hide EpochBoundary;
    forall m | m in t.miners
      ensures EpochBoundary(t, height).miners[m].pendingEpoch == height / MINER_EPOCH_LENGTH
    {
      BoundaryMiner(t, height, m);
    }
  }

  lemma BookedBetween(t: Treasury, height: nat)
    requires Booked(t, height) && height % MINER_EPOCH_LENGTH != 0
    ensures Booked(t, height + 1)
  {
    assert height / MINER_EPOCH_LENGTH == (height - 1) / MINER_EPOCH_LENGTH;
  }

  lemma KeptBookings(before: Treasury, after: Treasury, height: nat)
    requires Booked(before, height) && KeepsBookings(before, after)
    ensures Booked(after, height)
  {
  }

  // ---------------------------------------------------------------- who gets what at a boundary

  /** Pending rewards of the listed miners that did not check in. */
  function ForfeitOf(miners: map<Address, Miner>, addrs: seq<Address>, height: nat): nat
    requires height >= MINER_EPOCH_LENGTH && forall a :: a in addrs ==> a in miners
  {
    if addrs == [] then 0
    else (if CheckedIn(miners[addrs[0]], height) then 0 else miners[addrs[0]].pending) + ForfeitOf(miners, addrs[1..], height)
  }

  lemma {:induction false} OthersForfeitTheSame(miners: map<Address, Miner>, next: map<Address, Miner>, addrs: seq<Address>, height: nat)
    requires height >= MINER_EPOCH_LENGTH && forall a :: a in addrs ==> a in miners && a in next && miners[a] == next[a]
    ensures ForfeitOf(miners, addrs, height) == ForfeitOf(next, addrs, height)
  {
    if addrs != [] { OthersForfeitTheSame(miners, next, addrs[1..], height); }
  }

  lemma {:induction false} SettlingPays(b: map<Address, nat>, miners: map<Address, Miner>, addrs: seq<Address>, height: nat, a: Address)
    requires height >= MINER_EPOCH_LENGTH && NoRepeats(addrs)
    requires forall x :: x in addrs ==> x in miners && Lost(miners[x], height) == 0
    ensures Get(SettleEach(b, miners, addrs, height).0, a)
         == Get(b, a) + (if a in addrs && CheckedIn(miners[a], height) then miners[a].pending else 0)
            + (if a == NODE_INCENTIVE_POOL then ForfeitOf(miners, addrs, height) else 0)
    decreases |addrs|
  {
    if addrs != [] {
      var x := addrs[0];
      var next := miners[x := SettledMiner(miners[x], height)];
      hide SettledMiner;
      SettlingPays(PendingPaid(b, x, miners[x], height), next, addrs[1..], height, a);
      OthersForfeitTheSame(miners, next, addrs[1..], height);
    }
  }

  lemma {:induction false} NobodyQualifiesIff(miners: map<Address, Miner>, addrs: seq<Address>)
    requires forall a :: a in addrs ==> a in miners
    ensures Qualified(miners, addrs) == [] <==> forall a :: a in addrs ==> MiningWeight(miners[a]) == 0
  {
    if addrs != [] {
      NobodyQualifiesIff(miners, addrs[1..]);
      assert forall a :: a in addrs <==> a == addrs[0] || a in addrs[1..];
    }
  }

  /** What the pool gets back at a boundary: forfeited rewards, and the bucket when nobody qualifies for it. */
  ghost function PoolReturn(t: Treasury, height: nat): nat
    requires height >= MINER_EPOCH_LENGTH
  {
    var nobody := forall m :: m in t.miners ==> MiningWeight(SettledMiner(t.miners[m], height)) == 0;
    ForfeitOf(t.miners, Ascending(t.miners.Keys), height) + if nobody then t.bucket else 0
  }

  lemma BucketReturns(t: Treasury, a: Address)
    ensures var nobody := forall m :: m in t.miners ==> MiningWeight(t.miners[m]) == 0;
      Get(BucketBooked(t).balances, a) == Get(t.balances, a) + if nobody && a == NODE_INCENTIVE_POOL then t.bucket else 0
  {
    hide MiningWeight, BookEach, Shares;
    NobodyQualifiesIff(t.miners, Ascending(t.miners.Keys));
  }

  /** With rewards booked in time, a boundary pays every checked-in miner its pending reward, returns
    * the others' to the pool, and moves no other balance. */
  lemma PendingReachesSomeone(t: Treasury, height: nat, a: Address)
    requires Booked(t, height) && height > HEARTBEAT_V2_HEIGHT && height % MINER_EPOCH_LENGTH == 0
    ensures Get(EpochBoundary(t, height).balances, a)
         == Get(t.balances, a) + (if a in t.miners && CheckedIn(t.miners[a], height) then t.miners[a].pending else 0)
            + (if a == NODE_INCENTIVE_POOL then PoolReturn(t, height) else 0)
  {
    hide MiningWeight, SettledMiner, CheckedIn, BucketBooked, SettleEach, ForfeitOf;
    var addrs := Ascending(t.miners.Keys);
    BookedLosesNothing(t, height);
    SettlingPays(t.balances, t.miners, addrs, height, a);
    SettlingKeepsKeys(t.balances, t.miners, addrs, height);
    var (b, miners) := SettleEach(t.balances, t.miners, addrs, height);
    forall m | m in t.miners
      ensures miners[m] == SettledMiner(t.miners[m], height)
    {
      SettlingSettles(t.balances, t.miners, addrs, height, m);
    }
    BucketReturns(t.(balances := b, miners := miners), a);
  }

  lemma BookedLosesNothing(t: Treasury, height: nat)
    requires Booked(t, height) && height > HEARTBEAT_V2_HEIGHT && height % MINER_EPOCH_LENGTH == 0
    ensures forall m :: m in t.miners ==> Lost(t.miners[m], height) == 0
  {
    assert (height - 1) / MINER_EPOCH_LENGTH == height / MINER_EPOCH_LENGTH - 1;
  }

  lemma ActivityKeepsBookings(t: Treasury, height: nat, h: nat)
    ensures Booked(ActivityUpdated(t, height), h) <==> Booked(t, h)
    ensures Booked(Migrated(t), h) <==> Booked(t, h)
    ensures Checkins(ActivityUpdated(t, height).miners) == Checkins(t.miners)
  {
    SamePending(t, ActivityUpdated(t, height), h);
    SamePending(t, Migrated(t), h);
  }

  lemma SamePending(t: Treasury, u: Treasury, h: nat)
    requires t.miners.Keys == u.miners.Keys
    requires forall m :: m in t.miners ==>
      u.miners[m].pending == t.miners[m].pending && u.miners[m].pendingEpoch == t.miners[m].pendingEpoch
    ensures Booked(u, h) <==> Booked(t, h)
  {
  }
}
