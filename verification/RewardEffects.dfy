/** Who is paid what by rewards and fees: every balance, every booking, every record of uptime. */
module RewardEffects {
  import opened Common
  import opened ConsensusTypes
  import opened Rewards
  import opened NodeTypes
  import opened NodeSpec
  import Bookkeeping

  // ---------------------------------------------------------------- the schedule

  function Power2(n: nat): nat {
    if n == 0 then 1 else 2 * Power2(n - 1)
  }

  /** Ten tokens a block at first; from block 2000 eight, halved every 21024000 blocks, five times. */
  lemma Schedule(height: nat)
    ensures height < 2_000 ==> RewardPerBlock(height) == 10_000_000_000
    ensures height >= 2_000 ==>
      var halvings := (height - 2_000) / 21_024_000;
      RewardPerBlock(height) * Power2(if halvings <= 5 then halvings else 5) == 8_000_000_000
  {
    assert Power2(1) == 2 && Power2(2) == 4 && Power2(3) == 8 && Power2(4) == 16 && Power2(5) == 32;
  }

  lemma RewardsNeverGrow(g: nat, h: nat)
    requires g <= h
    ensures RewardPerBlock(h) <= RewardPerBlock(g)
  {
    if g >= MINING_UPGRADE_HEIGHT {
      assert (g - MINING_UPGRADE_HEIGHT) / HALVING_PERIOD <= (h - MINING_UPGRADE_HEIGHT) / HALVING_PERIOD;
    }
  }

  // ---------------------------------------------------------------- validators

  /** What `p` gets when `x` is paid for validator `a`: all of it by an undelegated one, else the commission by the validator, 80
    * percent unless set, and the rest by the owner of the delegation. */
  function Receives(t: Treasury, a: Address, x: nat, p: Address): nat {
    if a !in t.delegations || t.delegations[a] == a then (if p == a then x else 0)
    else
      var commission: Bps := if a in t.commissions then t.commissions[a] else 8_000;
      CommissionWithin(x, commission);
      var own := x * commission / 10_000;
      if p == a then own else if p == t.delegations[a] then x - own else 0
  }

  lemma PaidMeaning(b: map<Address, nat>, a: Address, x: nat, p: Address)
    ensures Get(Paid(b, a, x), p) == Get(b, p) + if p == a then x else 0
  {
  }

  lemma PaidThroughMeaning(t: Treasury, b: map<Address, nat>, a: Address, x: nat, p: Address)
    ensures Get(PaidThrough(t, b, a, x), p) == Get(b, p) + Receives(t, a, x, p)
  {
    hide Paid;
    PaidMeaning(b, a, x, p);
    if a in t.delegations && t.delegations[a] != a {
      var c: Bps := if a in t.commissions then t.commissions[a] else DEFAULT_COMMISSION;
      CommissionWithin(x, c);
      PaidMeaning(b, a, x * c / 10_000, p);
      PaidMeaning(Paid(b, a, x * c / 10_000), t.delegations[a], x - x * c / 10_000, p);
    }
  }

  /** What `p` gets when `shares[i]` is paid for `vs[i]`, for every i. */
  function Gathers(t: Treasury, vs: seq<(Address, nat)>, shares: seq<nat>, p: Address): nat
    requires |vs| == |shares|
  {
    if vs == [] then 0 else Receives(t, vs[0].0, shares[0], p) + Gathers(t, vs[1..], shares[1..], p)
  }

  lemma {:induction false} PayEachMeaning(t: Treasury, b: map<Address, nat>, vs: seq<(Address, nat)>, shares: seq<nat>, p: Address)
    requires |vs| == |shares|
    ensures Get(PayEach(t, b, vs, shares), p) == Get(b, p) + Gathers(t, vs, shares, p)
    decreases |vs|
  {
    hide PaidThrough, Receives;
    if vs != [] {
      PaidThroughMeaning(t, b, vs[0].0, shares[0], p);
      PayEachMeaning(t, PaidThrough(t, b, vs[0].0, shares[0]), vs[1..], shares[1..], p);
    }
  }

  /** The split of a reward by weight: rounded down for each but the last, who takes what is left. */
  ghost predicate Splits(reward: nat, ws: seq<nat>, shares: seq<nat>) {
    && |shares| == |ws| && Sum(ws) > 0 && Sum(shares) == reward
    && forall i :: 0 <= i < |ws| - 1 ==> shares[i] == reward * ws[i] / Sum(ws)
  }

  lemma {:induction false} SharesRoundDown(reward: nat, ws: seq<nat>, done: nat, distributed: nat, total: nat)
    requires InShare(reward, done, distributed, total) && done + Sum(ws) == total
    ensures forall i :: 0 <= i < |ws| - 1 ==> Shares(reward, ws, done, distributed, total)[i] == reward * ws[i] / total
    decreases |ws|
  {
    if |ws| > 1 {
      var share := reward * ws[0] / total;
      OneMoreShare(reward, ws[0], done, distributed, total);
      SharesRoundDown(reward, ws[1..], done + ws[0], distributed + share, total);
      var rest := Shares(reward, ws[1..], done + ws[0], distributed + share, total);
      assert Shares(reward, ws, done, distributed, total) == [share] + rest;
      forall i | 0 < i < |ws| - 1
        ensures rest[i - 1] == reward * ws[i] / total
      {
        assert ws[i] == ws[1..][i - 1];
      }
    }
  }

  lemma SharesSplit(reward: nat, ws: seq<nat>)
    requires Sum(ws) > 0
    ensures Splits(reward, ws, Shares(reward, ws, 0, 0, Sum(ws)))
  {
    SharesRoundDown(reward, ws, 0, 0, Sum(ws));
    hide Shares;
  }

  const POOL: Address := 0x01_00000000_00000000_00000000_00000000_00000000_00000000_00000000_000000
  const FUND: Address := 0x02_00000000_00000000_00000000_00000000_00000000_00000000_00000000_000000

  /** The part of a block's reward in basis points, as far as the pool reaches. */
  function FromReward(t: Treasury, height: nat, bps: nat): nat {
    var due := RewardPerBlock(height) * bps / 10_000;
    if due <= Get(t.balances, POOL) then due else Get(t.balances, POOL)
  }

  /** Every balance after a block reward: the pool pays all of it before block 2000 and 65 percent from then on, split among the
    * validators by weight, unless their weights are all zero. Nothing else changes. */
  lemma BlockRewardMeaning(t: Treasury, vs: seq<(Address, nat)>, height: nat, p: Address)
    ensures var u := BlockReward(t, vs, height);
      var reward := FromReward(t, height, if height < 2_000 then 10_000 else 6_500);
      && u == t.(balances := u.balances)
      && (Sum(Weights(vs)) == 0 ==> u == t)
      && (Sum(Weights(vs)) > 0 ==> exists shares ::
            && Splits(reward, Weights(vs), shares)
            && Get(u.balances, p) + (if p == POOL then reward else 0) == Get(t.balances, p) + Gathers(t, vs, shares, p))
  {
    hide PayEach, Gathers, Shares, RewardPerBlock, Sum;
    var reward, ws := ValidatorReward(t, height), Weights(vs);
    assert reward == FromReward(t, height, if height < 2_000 then 10_000 else 6_500);
    NoWeights();
    if Sum(ws) > 0 {
      SharesSplit(reward, ws);
      var shares := Shares(reward, ws, 0, 0, Sum(ws));
      if reward > 0 {
        PayEachMeaning(t, FromPool(t.balances, reward), vs, shares, p);
      } else {
        NothingGathered(t, vs, shares, p);
      }
    }
  }

  lemma NoWeights()
    ensures Sum(Weights([])) == 0
  {
  }

  lemma {:induction false} NothingGathered(t: Treasury, vs: seq<(Address, nat)>, shares: seq<nat>, p: Address)
    requires |vs| == |shares| && Sum(shares) == 0
    ensures Gathers(t, vs, shares, p) == 0
  {
    if vs != [] {
      NothingGathered(t, vs[1..], shares[1..], p);
    }
  }

  lemma HalfAndFifth(fees: nat)
    ensures fees * 50 / 100 == fees / 2 && fees * 20 / 100 == fees / 5
  {
    assert fees * 50 == fees / 2 * 100 + fees % 2 * 50;
    assert fees * 20 == fees / 5 * 100 + fees % 5 * 20;
  }

  /** Every balance after the fees of a block: half goes for the proposer, a fifth to the ecosystem fund, the rest to nobody. */
  lemma FeesMeaning(t: Treasury, proposer: Address, fees: nat, p: Address)
    ensures var u := FeesDistributed(t, proposer, fees);
      && u == t.(balances := u.balances)
      && Get(u.balances, p) == Get(t.balances, p) + Receives(t, proposer, fees / 2, p) + if p == FUND then fees / 5 else 0
  {
    hide PaidThrough, Paid, Receives;
    HalfAndFifth(fees);
    PaidThroughMeaning(t, t.balances, proposer, fees / 2, p);
    PaidMeaning(PaidThrough(t, t.balances, proposer, fees / 2), FUND, fees / 5, p);
  }

  // ---------------------------------------------------------------- miners

  ghost predicate Rising(vs: seq<(Address, nat)>) {
    forall i, j :: 0 <= i < j < |vs| ==> vs[i].0 < vs[j].0
  }

  /** `vs` lists exactly the active miners by address, each with its reputation. */
  ghost predicate ListsActive(t: Treasury, vs: seq<(Address, nat)>) {
    Rising(vs) && forall a, w :: (a, w) in vs <==> a in t.miners && t.miners[a].active && w == t.miners[a].reputation
  }

  lemma {:induction false} ActiveMembers(miners: map<Address, Miner>, addrs: seq<Address>, a: Address, w: nat)
    requires forall x :: x in addrs ==> x in miners
    ensures (a, w) in ActiveMiners(miners, addrs) <==> a in addrs && miners[a].active && w == miners[a].reputation
  {
    if addrs != [] {
      ActiveMembers(miners, addrs[1..], a, w);
    }
  }

  ghost predicate Ascend(addrs: seq<Address>) {
    forall i, j :: 0 <= i < j < |addrs| ==> addrs[i] < addrs[j]
  }

  lemma FirstIsLeast(addrs: seq<Address>)
    requires Ascend(addrs) && addrs != []
    ensures Ascend(addrs[1..]) && forall x :: x in addrs[1..] ==> addrs[0] < x
  {
  }

  lemma RisingBehind(v: (Address, nat), rest: seq<(Address, nat)>)
    requires Rising(rest) && forall j :: 0 <= j < |rest| ==> v.0 < rest[j].0
    ensures Rising([v] + rest)
  {
  }

  lemma {:induction false} ActiveRise(miners: map<Address, Miner>, addrs: seq<Address>)
    requires Ascend(addrs) && forall x :: x in addrs ==> x in miners
    ensures Rising(ActiveMiners(miners, addrs))
  {
    if addrs != [] {
      var rest, vs := ActiveMiners(miners, addrs[1..]), ActiveMiners(miners, addrs);
      FirstIsLeast(addrs);
      hide Ascend;
      ActiveRise(miners, addrs[1..]);
      forall j | 0 <= j < |rest|
        ensures addrs[0] < rest[j].0
      {
        ActiveMembers(miners, addrs[1..], rest[j].0, rest[j].1);
      }
      RisingBehind((addrs[0], miners[addrs[0]].reputation), rest);
      hide Rising;
      assert vs == rest || vs == [(addrs[0], miners[addrs[0]].reputation)] + rest;
    }
  }

  lemma ActiveAreListed(t: Treasury)
    ensures ListsActive(t, ActiveMiners(t.miners, Ascending(t.miners.Keys)))
  {
    var addrs := Ascending(t.miners.Keys);
    ActiveRise(t.miners, addrs);
    forall a: Address, w: nat
      ensures (a, w) in ActiveMiners(t.miners, addrs) <==> a in t.miners && t.miners[a].active && w == t.miners[a].reputation
    {
      ActiveMembers(t.miners, addrs, a, w);
    }
  }

  /** What `p` gets of the shares. */
  function Wins(vs: seq<(Address, nat)>, shares: seq<nat>, p: Address): nat
    requires |vs| == |shares|
  {
    if vs == [] then 0 else (if vs[0].0 == p then shares[0] else 0) + Wins(vs[1..], shares[1..], p)
  }

  lemma {:induction false} NothingWon(vs: seq<(Address, nat)>, shares: seq<nat>, p: Address)
    requires |vs| == |shares|
    ensures Wins(vs, shares, p) <= Sum(shares)
    ensures (forall i :: 0 <= i < |vs| ==> vs[i].0 != p) ==> Wins(vs, shares, p) == 0
  {
    if vs != [] {
      NothingWon(vs[1..], shares[1..], p);
      assert forall i :: 0 < i < |vs| ==> vs[i] == vs[1..][i - 1];
    }
  }

  lemma {:induction false} PayMinersMeaning(b: map<Address, nat>, vs: seq<(Address, nat)>, shares: seq<nat>, p: Address)
    requires |vs| == |shares|
    ensures Get(PayMiners(b, vs, shares), p) == Get(b, p) + Wins(vs, shares, p)
    decreases |vs|
  {
    hide Paid;
    if vs != [] {
      PaidMeaning(b, vs[0].0, shares[0], p);
      PayMinersMeaning(Paid(b, vs[0].0, shares[0]), vs[1..], shares[1..], p);
    }
  }

  /** Every balance after the mining reward of a block, 35 percent: none before block 2000; then split among the active miners by
    * reputation; from block 225900 on put into the bucket of the epoch. Nothing else changes. */
  lemma MiningRewardMeaning(t: Treasury, height: nat, p: Address)
    ensures var u, reward := MiningReward(t, height), FromReward(t, height, 3_500);
      && u == t.(balances := u.balances, bucket := u.bucket)
      && (height < 2_000 ==> u == t)
      && (2_000 <= height < 225_900 ==>
            u.bucket == t.bucket && exists vs ::
            && ListsActive(t, vs) && (Sum(Weights(vs)) == 0 ==> u == t)
            && (Sum(Weights(vs)) > 0 ==> exists shares ::
                  && Splits(reward, Weights(vs), shares)
                  && Get(u.balances, p) + (if p == POOL then reward else 0) == Get(t.balances, p) + Wins(vs, shares, p)))
      && (height >= 225_900 ==>
            u.bucket == t.bucket + reward && Get(u.balances, p) + (if p == POOL then reward else 0) == Get(t.balances, p))
  {
    hide PayMiners, Wins, Shares, RewardPerBlock, Sum, ListsActive, ActiveMiners, Ascending;
    assert MinersReward(t, height) == FromReward(t, height, 3_500);
    if MINING_UPGRADE_HEIGHT <= height < HEARTBEAT_V2_HEIGHT {
      DirectRewardMeaning(t, height, p);
    }
  }

  lemma DirectRewardMeaning(t: Treasury, height: nat, p: Address)
    requires height >= 2_000
    ensures var u, vs, reward := DirectMiningReward(t, height), ActiveMiners(t.miners, Ascending(t.miners.Keys)), MinersReward(t, height);
      && u == t.(balances := u.balances)
      && ListsActive(t, vs) && (Sum(Weights(vs)) == 0 ==> u == t)
      && (Sum(Weights(vs)) > 0 ==> exists shares ::
            && Splits(reward, Weights(vs), shares)
            && Get(u.balances, p) + (if p == POOL then reward else 0) == Get(t.balances, p) + Wins(vs, shares, p))
  {
    hide PayMiners, Wins, Shares, RewardPerBlock, Sum, ListsActive, ActiveMiners, Ascending;
    var vs, reward := ActiveMiners(t.miners, Ascending(t.miners.Keys)), MinersReward(t, height);
    ActiveAreListed(t);
    NoWeights();
    if Sum(Weights(vs)) > 0 {
      var shares := Shares(reward, Weights(vs), 0, 0, Sum(Weights(vs)));
      SharesSplit(reward, Weights(vs));
      NothingWon(vs, shares, p);
      if reward > 0 { PayMinersMeaning(FromPool(t.balances, reward), vs, shares, p); }
    }
  }

  // ---------------------------------------------------------------- miners at a boundary

  /** The miner checked in during the epoch before the boundary: by witness, and before those by heartbeat. */
  predicate Attends(m: Miner, height: nat) {
    (if height >= 280_500 then m.lastCheckin else m.lastHeartbeat / 100) + 1 == height / 100
  }

  lemma {:induction false} FewerTimes(n: nat, d: nat, q: nat)
    requires d < q
    ensures d * n + n <= q * n
  {
    assert q * n == (q - 1) * n + n;
    if d + 1 < q {
      FewerTimes(n, d, q - 1);
    }
  }

  lemma RemainderIs(x: nat, n: nat, q: nat, r: nat)
    requires r < n && x == q * n + r
    ensures x % n == r
  {
    var d := x / n;
    assert x == d * n + x % n;
    if d < q {
      FewerTimes(n, d, q);
    } else if d > q {
      FewerTimes(n, q, d);
    }
  }

  lemma HalfOfLow(x: nat, q: nat)
    requires q > 0
    ensures x % (2 * q) == 2 * (x / 2 % q) + x % 2
  {
    var y := x / 2;
    assert y == y / q * q + y % q;
    assert x == (y / q) * (2 * q) + (2 * (y % q) + x % 2);
    RemainderIs(x, 2 * q, y / q, 2 * (y % q) + x % 2);
  }

  lemma {:induction false} AttendedInLow(x: nat, k: nat, n: nat)
    requires n <= k
    ensures Power2(k) > 0 && Attended(x % Power2(k), n) == Attended(x, n)
  {
    if n > 0 {
      AttendedInLow(x / 2, k - 1, n - 1);
      HalfOfLow(x, Power2(k - 1));
    } else if k > 0 {
      AttendedInLow(x, k - 1, 0);
    }
  }

  lemma SixteenBits()
    ensures Power2(16) == 65536
  {
    assert Power2(8) == 256;
  }

  /** The window of twelve epochs moves on by one. */
  lemma AttendanceMovesOn(bits: nat, attends: nat)
    requires attends <= 1
    ensures Attended(bits * 2 % 65536 + attends, 12) == Attended(bits, 11) + attends
  {
    SixteenBits();
    HalfOfLow(bits * 2, 32768);
    assert Power2(15) == 32768;
    var low := bits * 2 % 65536 + attends;
    assert low / 2 == bits % 32768 && low % 2 == attends;
    AttendedInLow(bits, 15, 11);
  }

  /** What a boundary makes of a miner, but for the booking: who attends is active and may rise in reputation with age; who does
    * not loses a percent, down to 2000, and is deactivated by the sixth miss in a row. */
  lemma SettledMeaning(m: Miner, height: nat)
    requires height >= MINER_EPOCH_LENGTH
    ensures CheckedIn(m, height) <==> Attends(m, height)
    ensures var s, attends := SettledMiner(m, height), Attends(m, height);
      && Attended(s.attendance, 12) == Attended(m.attendance, 11) + (if attends then 1 else 0)
      && (s.active <==> attends || (m.active && m.misses < 5))
      && s.misses == (if attends then 0 else if m.misses < 65535 then m.misses + 1 else m.misses)
      && (attends ==>
            var floor := if m.registeredAt + 864_000 <= height then 10_000 else if m.registeredAt + 201_600 <= height then 5_000 else 0;
            s.reputation == Max(m.reputation, floor))
      && (!attends && m.reputation <= 10_000 ==> s.reputation == Max(m.reputation * 99 / 100, 2_000))
      && s.pending == 0 && s.pendingEpoch == height / 100
      && s.registeredAt == m.registeredAt && s.lastHeartbeat == m.lastHeartbeat && s.lastCheckin == m.lastCheckin
  {
    hide Attended;
    AttendanceMovesOn(m.attendance, if Attends(m, height) then 1 else 0);
    NinetyNine(m.reputation);
  }

  lemma NinetyNine(x: nat)
    ensures x * 9_900 / 10_000 == x * 99 / 100
  {
    assert x * 9_900 == x * 99 / 100 * 10_000 + x * 99 % 100 * 100;
  }

  /** What a miner's share is weighed by: its reputation, in full after twelve epochs attended of twelve, 80 percent after nine,
    * half after six, and nothing below that or while inactive. */
  function Merit(m: Miner): nat {
    var count := Attended(m.attendance, 12);
    if !m.active || count < 6 then 0 else m.reputation * if count >= 12 then 100 else if count >= 9 then 80 else 50
  }

  lemma {:induction false} AtMost(bits: nat, n: nat)
    ensures Attended(bits, n) <= n
  {
    if n > 0 { AtMost(bits / 2, n - 1); }
  }

  lemma MeritIsWeight(m: Miner)
    ensures MiningWeight(m) == Merit(m)
  {
    hide Attended;
    AtMost(m.attendance, 12);
  }

  /** `vs` lists exactly the miners with merit, by address. */
  ghost predicate ListsDeserving(miners: map<Address, Miner>, vs: seq<(Address, nat)>) {
    Rising(vs) && forall a, w :: (a, w) in vs <==> a in miners && w == Merit(miners[a]) && w > 0
  }

  lemma {:induction false} QualifiedMembers(miners: map<Address, Miner>, addrs: seq<Address>, a: Address, w: nat)
    requires forall x :: x in addrs ==> x in miners
    ensures (a, w) in Qualified(miners, addrs) <==> a in addrs && w == Merit(miners[a]) && w > 0
  {
    hide MiningWeight, Merit;
    if addrs != [] {
      MeritIsWeight(miners[addrs[0]]);
      QualifiedMembers(miners, addrs[1..], a, w);
    }
  }

  lemma {:induction false} QualifiedRise(miners: map<Address, Miner>, addrs: seq<Address>)
    requires Ascend(addrs) && forall x :: x in addrs ==> x in miners
    ensures Rising(Qualified(miners, addrs))
  {
    hide MiningWeight, Merit;
    if addrs != [] {
      var rest, vs := Qualified(miners, addrs[1..]), Qualified(miners, addrs);
      FirstIsLeast(addrs);
      hide Ascend;
      QualifiedRise(miners, addrs[1..]);
      forall j | 0 <= j < |rest|
        ensures addrs[0] < rest[j].0
      {
        QualifiedMembers(miners, addrs[1..], rest[j].0, rest[j].1);
      }
      RisingBehind((addrs[0], MiningWeight(miners[addrs[0]])), rest);
      hide Rising;
      assert vs == rest || vs == [(addrs[0], MiningWeight(miners[addrs[0]]))] + rest;
    }
  }

  lemma QualifiedAreDeserving(miners: map<Address, Miner>)
    ensures ListsDeserving(miners, Qualified(miners, Ascending(miners.Keys)))
  {
    var addrs := Ascending(miners.Keys);
    QualifiedRise(miners, addrs);
    hide Merit;
    forall a: Address, w: nat
      ensures (a, w) in Qualified(miners, addrs) <==> a in miners && w == Merit(miners[a]) && w > 0
    {
      QualifiedMembers(miners, addrs, a, w);
    }
  }

  lemma {:induction false} BookingMeaning(miners: map<Address, Miner>, qs: seq<(Address, nat)>, shares: seq<nat>, a: Address)
    requires |qs| == |shares| && a in miners && (forall i :: 0 <= i < |qs| ==> qs[i].0 in miners) && Rising(qs)
    ensures var r := BookEach(miners, qs, shares);
      && a in r
      && ((exists i :: 0 <= i < |qs| && qs[i].0 == a && shares[i] > 0) ==> r[a].pending == Wins(qs, shares, a))
      && ((forall i :: 0 <= i < |qs| && qs[i].0 == a ==> shares[i] == 0) ==> r[a].pending == miners[a].pending && Wins(qs, shares, a) == 0)
    decreases |qs|
  {
    BookingKeeps(miners, qs, shares, a);
    if qs != [] {
      var x := qs[0].0;
      var next := if shares[0] > 0 then miners[x := miners[x].(pending := shares[0])] else miners;
      assert forall i :: 0 < i < |qs| ==> qs[i] == qs[1..][i - 1] && shares[i] == shares[1..][i - 1] && x < qs[i].0;
      BookingMeaning(next, qs[1..], shares[1..], a);
      NothingWon(qs[1..], shares[1..], a);
    }
  }

  /** `a` gets `x` of a bucket split by weight; nothing if nobody has any. */
  ghost predicate Deals(bucket: nat, vs: seq<(Address, nat)>, a: Address, x: nat) {
    if vs == [] then x == 0 else exists shares :: Splits(bucket, Weights(vs), shares) && x == Wins(vs, shares, a)
  }

  lemma BookedShare(miners: map<Address, Miner>, bucket: nat, vs: seq<(Address, nat)>, a: Address)
    requires a in miners && miners[a].pending == 0 && vs != [] && Sum(Weights(vs)) > 0
    requires (forall i :: 0 <= i < |vs| ==> vs[i].0 in miners) && Rising(vs)
    ensures var r := BookEach(miners, vs, Shares(bucket, Weights(vs), 0, 0, Sum(Weights(vs))));
      a in r && Deals(bucket, vs, a, r[a].pending)
  {
    hide Shares, Wins, BookEach, Sum;
    var shares := Shares(bucket, Weights(vs), 0, 0, Sum(Weights(vs)));
    SharesSplit(bucket, Weights(vs));
    BookingMeaning(miners, vs, shares, a);
  }

  lemma BucketMeaning(t: Treasury, a: Address)
    requires a in t.miners && t.miners[a].pending == 0
    ensures var u, vs := BucketBooked(t), Qualified(t.miners, Ascending(t.miners.Keys));
      && u.bucket == 0 && a in u.miners && u.miners[a] == t.miners[a].(pending := u.miners[a].pending)
      && ListsDeserving(t.miners, vs) && Deals(t.bucket, vs, a, u.miners[a].pending)
  {
    hide Qualified, BookEach, Shares, MiningWeight, Merit, Ascending, Wins, Splits, Sum, Weights, Paid;
    var vs := Qualified(t.miners, Ascending(t.miners.Keys));
    BucketMiner(t, a);
    QualifiedAreDeserving(t.miners);
    QualifiedAreListed(t.miners, Ascending(t.miners.Keys));
    if vs != [] {
      if t.bucket > 0 { BookedShare(t.miners, t.bucket, vs, a); } else { NothingDealt(vs, a); }
    }
  }

  lemma NothingDealt(vs: seq<(Address, nat)>, a: Address)
    requires vs != [] && Sum(Weights(vs)) > 0
    ensures Deals(0, vs, a, 0)
  {
    hide Shares, Wins, Sum;
    var shares := Shares(0, Weights(vs), 0, 0, Sum(Weights(vs)));
    SharesSplit(0, Weights(vs));
    NothingWon(vs, shares, a);
  }

  lemma BoundaryParts(t: Treasury, height: nat)
    requires height > 225_900 && height % 100 == 0
    ensures exists b, settled: map<Address, Miner> ::
      && settled.Keys == t.miners.Keys && (forall m :: m in settled ==> settled[m] == SettledMiner(t.miners[m], height))
      && EpochBoundary(t, height) == BucketBooked(t.(balances := b, miners := settled))
  {
    hide SettledMiner, BucketBooked, SettleEach;
    var addrs := Ascending(t.miners.Keys);
    var (b, settled) := SettleEach(t.balances, t.miners, addrs, height);
    SettlingKeepsKeys(t.balances, t.miners, addrs, height);
    forall m | m in settled
      ensures settled[m] == SettledMiner(t.miners[m], height)
    {
      SettlingSettles(t.balances, t.miners, addrs, height, m);
    }
    assert EpochBoundary(t, height) == BucketBooked(t.(balances := b, miners := settled));
  }

  /** What a boundary leaves of every miner: settled, and with its share of the bucket booked, by merit. */
  lemma BoundaryMeaning(t: Treasury, height: nat, a: Address)
    requires a in t.miners && height > 225_900 && height % 100 == 0
    ensures exists settled: map<Address, Miner>, vs ::
      && settled.Keys == t.miners.Keys && (forall m :: m in settled ==> settled[m] == SettledMiner(t.miners[m], height))
      && ListsDeserving(settled, vs)
      && var u := EpochBoundary(t, height);
      && u.bucket == 0 && a in u.miners && u.miners[a] == settled[a].(pending := u.miners[a].pending)
      && Deals(t.bucket, vs, a, u.miners[a].pending)
  {
    BoundaryParts(t, height);
    var b, settled: map<Address, Miner> :|
      && settled.Keys == t.miners.Keys && (forall m :: m in settled ==> settled[m] == SettledMiner(t.miners[m], height))
      && EpochBoundary(t, height) == BucketBooked(t.(balances := b, miners := settled));
    SettledMeaning(t.miners[a], height);
    BucketMeaning(t.(balances := b, miners := settled), a);
    hide SettledMiner, EpochBoundary, BucketBooked, ListsDeserving, Deals;
  }

  /** The first boundary of the epoch scheme pays and books nothing: miners start anew, and the bucket returns to the pool. */
  lemma ActivationMeaning(t: Treasury, a: Address)
    ensures var u := EpochBoundary(t, 225_900);
      && u == t.(balances := u.balances, miners := u.miners, bucket := 0) && u.miners.Keys == t.miners.Keys
      && Get(u.balances, a) == Get(t.balances, a) + (if a == POOL then t.bucket else 0)
      && (a in t.miners ==> u.miners[a] == t.miners[a].(pending := 0, pendingEpoch := 0, attendance := 0, misses := 0))
  {
  }

  /** Before the epoch scheme a miner is dropped once its last heartbeat is more than 2000 blocks old; witnesses take over with the
    * epoch of the last heartbeat. */
  lemma ActivityMeaning(t: Treasury, height: nat, a: Address)
    requires a in t.miners
    ensures var u := ActivityUpdated(t, height);
      && u == t.(miners := u.miners) && u.miners.Keys == t.miners.Keys && u.miners[a] == t.miners[a].(active := u.miners[a].active)
      && (u.miners[a].active <==>
            t.miners[a].active && (height >= 225_900 || height <= t.miners[a].lastHeartbeat + 2_000))
    ensures var u := Migrated(t);
      && u == t.(miners := u.miners) && u.miners.Keys == t.miners.Keys
      && u.miners[a] == t.miners[a].(lastCheckin := t.miners[a].lastHeartbeat / 100)
  {
  }

  // ---------------------------------------------------------------- blocks

  /** The three rewards of a block follow one another: block reward, mining reward, fees. */
  lemma RewardedMeaning(k: Kernel, w: World, vs: seq<(Address, nat)>, proposer: Address, height: nat, fees: nat)
    ensures var v := Rewarded(k, w, vs, proposer, height, fees).0;
      && Books(v) == FeesDistributed(MiningReward(BlockReward(Books(w), vs, height), height), proposer, fees)
      && v == w.(ledger := v.ledger, miners := v.miners, stakes := v.stakes)
      && var w1 := WithBooks(w, BlockReward(Books(w), vs, height));
         var w2 := WithBooks(w1, MiningReward(Books(w1), height));
         Rewarded(k, w, vs, proposer, height, fees).1
         == k.blockRewardEvents(w, vs, height) + k.miningRewardEvents(w1, height) + k.feeEvents(w2, proposer, fees)
  {
    hide BlockReward, MiningReward, FeesDistributed;
    var t1 := BlockReward(Books(w), vs, height);
    var t2 := MiningReward(t1, height);
    var w1 := WithBooks(w, t1);
    Bookkeeping.BooksHold(w, t1);
    Bookkeeping.BooksHold(w1, t2);
    Bookkeeping.BooksHold(WithBooks(w1, t2), FeesDistributed(t2, proposer, fees));
    hide Books;
  }

  /** Block rewards go to the active validators that are not offline, in the order of the active set. */
  lemma {:induction false} RewardedJoin(xs: seq<ActiveValidator>, ys: seq<ActiveValidator>, offline: set<Address>)
    ensures RewardedValidators(xs + ys, offline) == RewardedValidators(xs, offline) + RewardedValidators(ys, offline)
  {
    if xs == [] {
      assert xs + ys == ys;
    } else {
      assert (xs + ys)[1..] == xs[1..] + ys;
      RewardedJoin(xs[1..], ys, offline);
    }
  }

  lemma RewardedOne(v: ActiveValidator, offline: set<Address>)
    ensures RewardedValidators([v], offline) == if v.address in offline then [] else [(v.address, v.weight)]
  {
    assert [v][1..] == [];
  }

  function Listed(active: seq<ActiveValidator>, a: Address): nat {
    if active == [] then 0 else (if active[0].address == a then 1 else 0) + Listed(active[1..], a)
  }

  lemma {:induction false} ExpectedMeaning(u: map<Address, Uptime>, active: seq<ActiveValidator>, proposer: Address, a: Address)
    ensures var v := UptimeOf(ExpectedBumped(u, active, proposer), a);
      && v == UptimeOf(u, a).(expected := v.expected)
      && v.expected == UptimeOf(u, a).expected + if a == proposer then 0 else Listed(active, a)
    decreases |active|
  {
    if active != [] {
      var x := active[0].address;
      var next := if x == proposer then u else u[x := UptimeOf(u, x).(expected := UptimeOf(u, x).expected + 1)];
      ExpectedMeaning(next, active[1..], proposer, a);
    }
  }

  /** A block counts for its proposer as produced, signed and expected, and as expected for every other active validator. */
  lemma TrackedMeaning(w: World, active: seq<ActiveValidator>, proposer: Address, a: Address)
    ensures var v := Tracked(w, active, proposer);
      && v == w.(uptime := v.uptime)
      && var before, after := UptimeOf(w.uptime, a), UptimeOf(v.uptime, a);
      && (if a == proposer then after == Uptime(before.produced + 1, before.signed + 1, before.expected + 1)
          else after == before.(expected := before.expected + Listed(active, a)))
  {
    hide ExpectedBumped;
    var u := UptimeOf(w.uptime, proposer);
    ExpectedMeaning(w.uptime[proposer := Uptime(u.produced + 1, u.signed + 1, u.expected + 1)], active, proposer, a);
  }
}
