/** What it means that a node accepts a block, a vote or a witness, check by check. */
module Verdicts {
  import opened Common
  import opened ConsensusTypes
  import opened NodeTypes
  import opened Checkins
  import opened NodeSpec
  import opened Acceptance
  import opened Agreement
  import Election
  import Slashing
  import ValidatorSet
  import Voting

  // ---------------------------------------------------------------- the header

  /** An active validator whose signature on the block holds. */
  ghost predicate Signs(k: Kernel, active: seq<ActiveValidator>, b: Block, a: Address) {
    && a in Addresses(active)
    && exists i :: 0 <= i < |b.signatures| && b.signatures[i].0 == a && k.verifies(a, b.hash, b.signatures[i].1)
  }

  /** All of `signers` sign, and they are more than two thirds of seven or more validators; one is enough of fewer, and while
    * syncing the block's own validator is. */
  ghost predicate Attests(k: Kernel, active: seq<ActiveValidator>, b: Block, isSync: bool, signers: set<Address>) {
    && (forall a :: a in signers ==> Signs(k, active, b, a))
    && (|signers| >= (if |active| < 7 then 1 else 2 * |active| / 3 + 1) || (isSync && b.validator in signers))
  }

  lemma SignersSign(k: Kernel, active: seq<ActiveValidator>, b: Block)
    ensures forall a :: a in ValidSigners(k, active, b) <==> Signs(k, active, b, a)
  {
    forall a
      ensures a in ValidSigners(k, active, b) <==> Signs(k, active, b, a)
    {
      assert a in Addresses(active) <==> IsActive(active, a);
    }
  }

  lemma {:induction false} Fewer(a: set<Address>, b: set<Address>)
    requires a <= b
    ensures |a| <= |b|
    decreases |a|
  {
    if x :| x in a {
      Fewer(a - {x}, b - {x});
    }
  }

  lemma EnoughIff(k: Kernel, active: seq<ActiveValidator>, b: Block, isSync: bool)
    ensures EnoughSigners(k, active, b, isSync) <==> exists ss :: Attests(k, active, b, isSync, ss)
  {
    var signers := ValidSigners(k, active, b);
    SignersSign(k, active, b);
    hide ValidSigners, Signs;
    if EnoughSigners(k, active, b, isSync) {
      assert Attests(k, active, b, isSync, signers);
    }
    if ss :| Attests(k, active, b, isSync, ss) {
      assert ss <= signers;
      Fewer(ss, signers);
    }
  }

  /** Exactly which blocks pass the checks before anything changes. */
  lemma HeaderPassesIff(k: Kernel, s: NodeState, b: Block, isSync: bool, clock: nat)
    ensures HeaderFault(k, s, b, isSync, clock) == None <==>
      && b.height == s.latest.height + 1 && b.prevHash == s.latest.hash
      && b.hash == k.blockHash(b.HashedPart())
      && s.latest.timestamp <= b.timestamp <= clock + 30
      && |b.transactions| <= 500
      && exists ss :: Attests(k, s.active, b, isSync, ss)
  {
    EnoughIff(k, s.active, b, isSync);
    hide EnoughSigners, Attests;
  }

  // ---------------------------------------------------------------- the witnesses

  /** What checks (a) to (e) ask of one witness in a block at `height`. */
  ghost predicate Admissible(k: Kernel, miners: map<Address, nat>, store: map<nat, Block>, height: nat, w: Witness) {
    && w.miner in miners && miners[w.miner] != height / 100
    && (w.epoch == height / 100 || (height >= 384_500 && w.epoch + 1 == height / 100))
    && w.epoch * 100 <= w.refHeight < height
    && w.refHeight in store && store[w.refHeight].hash == w.refHash
    && k.checkinVerifies(w.miner, w.epoch, w.refHash, w.signature)
  }

  lemma AdmissibleIff(k: Kernel, miners: map<Address, nat>, store: map<nat, Block>, height: nat, w: Witness)
    requires height >= CHECKIN_V3_HEIGHT
    ensures WitnessFault(k, miners, store, height, w) == None <==> Admissible(k, miners, store, height, w)
  {
  }

  /** A list passes exactly when every witness does, and no miner is listed twice. */
  lemma {:induction false} ListPassesIff(k: Kernel, miners: map<Address, nat>, store: map<nat, Block>, height: nat, ws: seq<Witness>,
                                         seen: set<Address>)
    requires height >= CHECKIN_V3_HEIGHT
    ensures FirstFault(k, miners, store, height, ws, seen) == None <==>
      && (forall i :: 0 <= i < |ws| ==> Admissible(k, miners, store, height, ws[i]) && ws[i].miner !in seen)
      && (forall i, j :: 0 <= i < j < |ws| ==> ws[i].miner != ws[j].miner)
    decreases |ws|
  {
    hide Admissible, WitnessFault;
    if ws != [] {
      AdmissibleIff(k, miners, store, height, ws[0]);
      ListPassesIff(k, miners, store, height, ws[1..], seen + {ws[0].miner});
      assert forall i :: 0 <= i < |ws[1..]| ==> ws[1..][i] == ws[i + 1];
      assert forall i :: 0 < i < |ws| ==> ws[i] == ws[1..][i - 1];
    }
  }

  // ---------------------------------------------------------------- the block

  /** Elected for the height, as primary or as fallback. */
  predicate Leads(k: Kernel, s: NodeState, a: Address) {
    var seed := k.vrfSeed(s.latest.hash, s.latest.height + 1);
    Election.Proposer(s.active, seed) == Some(a) || Election.Fallback(s.active, seed) == Some(a)
  }

  /** The witnesses a block may carry: none before check-ins by witness, and then admissible ones of different miners. */
  ghost predicate MayCarry(k: Kernel, s: NodeState, miners: map<Address, nat>, height: nat, ws: seq<Witness>) {
    if height < 280_500 then ws == []
    else
      && (forall i :: 0 <= i < |ws| ==> Admissible(k, miners, s.store, height, ws[i]))
      && (forall i, j :: 0 <= i < j < |ws| ==> ws[i].miner != ws[j].miner)
  }

  /** Everything a node demands of a block. */
  ghost predicate Acceptable(k: Kernel, s: NodeState, b: Block, isSync: bool, clock: nat) {
    && b.height == s.latest.height + 1 && b.prevHash == s.latest.hash
    && b.hash == k.blockHash(b.HashedPart())
    && s.latest.timestamp <= b.timestamp <= clock + 30
    && |b.transactions| <= 500
    && (exists ss :: Attests(k, s.active, b, isSync, ss))
    && Leads(k, s, b.validator)
    && ReplayWorld(k, s, b).Some?
    && var (w, fees) := ReplayWorld(k, s, b).value;
    && MayCarry(k, s, Settled(k, w, b.height).0.miners, b.height, b.checkins)
    && CheckedWorld(k, s, b).Some?
    && var checked := CheckedWorld(k, s, b).value;
    && k.stateRoot(checked) == b.stateRoot
    && Supply(checked) + FeeBurn(fees) == Supply(s.world)
  }

  lemma CheckinsPassIff(k: Kernel, s: NodeState, w: World, height: nat, ws: seq<Witness>)
    ensures VerifyCheckins(k, w, s.store, height, ws).Ok?
       <==> MayCarry(k, s, Settled(k, w, height).0.miners, height, ws)
  {
    hide Settled, SettledBeforeV3, FirstFault, Admissible, CreditAll;
    if height >= CHECKIN_V3_HEIGHT {
      ListPassesIff(k, Settled(k, w, height).0.miners, s.store, height, ws, {});
    }
  }

  lemma LeaderIff(k: Kernel, s: NodeState, b: Block)
    requires b.height == s.latest.height + 1 && b.prevHash == s.latest.hash && s.active != []
    ensures ProposerAllowed(k, s, b) <==> Leads(k, s, b.validator)
  {
    hide Election.Proposer, Election.Fallback, IsActive;
    ProposerIsActive(s.active, BlockSeed(k, b));
  }

  lemma SomebodySigns(k: Kernel, active: seq<ActiveValidator>, b: Block, isSync: bool, ss: set<Address>)
    requires Attests(k, active, b, isSync, ss)
    ensures active != []
  {
    if ss == {} {
      assert |ss| == 0;
    } else {
      var a :| a in ss;
      assert a in Addresses(active);
    }
  }

  /** A node accepts exactly the acceptable blocks. */
  lemma AcceptsIff(k: Kernel, s: NodeState, b: Block, isSync: bool, clock: nat)
    ensures Applied(k, s, b, isSync, clock).1 == Accepted <==> Acceptable(k, s, b, isSync, clock)
  {
    HeaderPassesIff(k, s, b, isSync, clock);
    hide HeaderFault, ProposerAllowed, VerifierSlashing, ReplayWorld, VerifyCheckins, Supply, FeeBurn, AllInserted, Rotated, Adopted,
      Settled, MayCarry, Attests, Leads;
    if HeaderFault(k, s, b, isSync, clock) == None {
      var ss :| Attests(k, s.active, b, isSync, ss);
      SomebodySigns(k, s.active, b, isSync, ss);
      LeaderIff(k, s, b);
      if ReplayWorld(k, s, b).Some? {
        CheckinsPassIff(k, s, ReplayWorld(k, s, b).value.0, b.height, b.checkins);
      }
    }
  }

  // ---------------------------------------------------------------- the node afterwards

  lemma ConclusionParts(k: Kernel, s: NodeState, b: Block, w: World, fees: nat)
    ensures var (t, verdict) := Concluded(k, s, b, w, fees);
      && (verdict != Accepted ==> t == s.(cache := t.cache))
      && (verdict == Accepted ==>
            && VerifyCheckins(k, w, s.store, b.height, b.checkins).Ok?
            && var world := WithSlashing(VerifyCheckins(k, w, s.store, b.height, b.checkins).value, s.slashing);
               t == Rotated(Adopted(k, s.(cache := CacheAfter(s, b)), b, world), b.height))
  {
    hide VerifyCheckins, Supply, FeeBurn, AllInserted, Rotated, Adopted;
  }

  /** A refused block changes neither chain nor world: slot counters and cache at most. */
  lemma RefusedChangesLittle(k: Kernel, s: NodeState, b: Block, isSync: bool, clock: nat)
    requires Applied(k, s, b, isSync, clock).1 != Accepted
    ensures var t := Applied(k, s, b, isSync, clock).0; t == s.(slashing := t.slashing, cache := t.cache)
  {
    hide HeaderFault, ProposerAllowed, VerifierSlashing, ReplayWorld, Concluded;
    if HeaderFault(k, s, b, isSync, clock) == None && ProposerAllowed(k, s, b) && ReplayWorld(k, s, b).Some? {
      var (w, fees) := ReplayWorld(k, s, b).value;
      ConclusionParts(k, s.(slashing := VerifierSlashing(k, s, b)), b, w, fees);
    }
  }

  /** What each verdict leaves changed: nothing before the proposer is known to be allowed, then the slot counters, and once the
    * witnesses are checked the cache that holds them. */
  lemma RefusalMeaning(k: Kernel, s: NodeState, b: Block, isSync: bool, clock: nat)
    requires Applied(k, s, b, isSync, clock).1 != Accepted
    ensures var (t, why) := (Applied(k, s, b, isSync, clock).0, Applied(k, s, b, isSync, clock).1.why);
      var counted := s.(slashing := VerifierSlashing(k, s, b));
      if why == TransactionFailed || why.BadCheckin? then t == counted
      else if why == StateRootMismatch || why == SupplyViolation then t == counted.(cache := CacheAfter(s, b))
      else t == s
  {
    hide EnoughSigners, ProposerAllowed, VerifierSlashing, ReplayWorld, VerifyCheckins, Supply, FeeBurn, Rotated, Adopted, AllInserted;
  }

  /** Filing witnesses of different miners: each is found under its epoch and miner, and nothing else changes. */
  lemma {:induction false} FilingMeaning(c: Cache, ws: seq<Witness>, e: nat, m: Address)
    requires forall i, j :: 0 <= i < j < |ws| ==> ws[i].miner != ws[j].miner
    ensures var before, after := At(c, e), At(AllInserted(c, ws), e);
      && (forall i :: 0 <= i < |ws| && ws[i].miner == m && ws[i].epoch == e ==> m in after && after[m] == ws[i])
      && ((forall i :: 0 <= i < |ws| ==> ws[i].miner != m || ws[i].epoch != e) ==>
            (m in after <==> m in before) && (m in before ==> after[m] == before[m]))
    decreases |ws|
  {
    if ws != [] {
      var next := Inserted(c, ws[0]);
      assert forall i :: 0 < i < |ws| ==> ws[i] == ws[1..][i - 1] && ws[i].miner != ws[0].miner;
      assert forall i :: 0 <= i < |ws[1..]| ==> ws[1..][i] == ws[i + 1];
      FilingMeaning(next, ws[1..], e, m);
      hide Inserted;
      FiledFirst(c, ws[0], e, m);
    }
  }

  lemma FiledFirst(c: Cache, w: Witness, e: nat, m: Address)
    ensures var before, after := At(c, e), At(Inserted(c, w), e);
      if w.miner == m && w.epoch == e then m in after && after[m] == w
      else (m in after <==> m in before) && (m in before ==> after[m] == before[m])
  {
  }

  /** An accepted block's witnesses stay in the cache, and so does everything that was there. */
  lemma AcceptedCache(k: Kernel, s: NodeState, b: Block, isSync: bool, clock: nat)
    requires Applied(k, s, b, isSync, clock).1 == Accepted
    ensures Applied(k, s, b, isSync, clock).0.cache == if b.height >= 280_500 then AllInserted(s.cache, b.checkins) else s.cache
  {
    var (w, fees) := ReplayWorld(k, s, b).value;
    var t := s.(slashing := VerifierSlashing(k, s, b));
    ConclusionParts(k, t, b, w, fees);
    hide HeaderFault, ProposerAllowed, VerifierSlashing, ReplayWorld, VerifyCheckins, Concluded, Rotated, AllInserted, Adopted;
    AdoptionKeepsCache(k, t.(cache := CacheAfter(t, b)), b, CheckedWorld(k, s, b).value);
  }

  lemma AdoptionKeepsCache(k: Kernel, s: NodeState, b: Block, world: World)
    ensures Rotated(Adopted(k, s, b, world), b.height).cache == s.cache
  {
    RotationKeeps(Adopted(k, s, b, world), b.height);
    hide Rotated;
  }

  lemma RotationKeeps(s: NodeState, height: nat)
    ensures var t := Rotated(s, height);
      && t == s.(world := t.world, active := t.active, epoch := t.epoch, slashing := t.slashing, offline := t.offline,
                 savedOffline := t.savedOffline)
      && (height % 100 != 0 ==> t == s)
      && (height % 100 == 0 && height > 0 ==> t.epoch == s.epoch + 1)
  {
    hide ValidatorSet.Inputs.Active, Slashing.State.Offline, Slashing.State.CountersReset, Slashing.State.Unjailed;
  }

  /** What accepting a block makes of a node: the block on top, the checked world, and nothing else between epochs. */
  lemma AcceptedChanges(k: Kernel, s: NodeState, b: Block, isSync: bool, clock: nat)
    requires Applied(k, s, b, isSync, clock).1 == Accepted
    ensures CheckedWorld(k, s, b).Some?
    ensures var t, checked := Applied(k, s, b, isSync, clock).0, CheckedWorld(k, s, b).value;
      && t.latest == b && t.store == s.store[b.height := b] && t.snapshot == Some(k.encode(checked))
      && t.pendingVotes == map[] && t.mempool == s.mempool && t.txCount == s.txCount + |b.transactions|
      && t.self == s.self && t.genesisHash == s.genesisHash && t.lastSnapshotHeight == s.lastSnapshotHeight
      && (b.height % 100 != 0 ==>
            && t.world == checked && t.active == s.active && t.epoch == s.epoch && t.offline == s.offline
            && t.slashing == VerifierSlashing(k, s, b))
      && (b.height % 100 == 0 && b.height > 0 ==> t.epoch == s.epoch + 1)
  {
    var (w, fees) := ReplayWorld(k, s, b).value;
    ConclusionParts(k, s.(slashing := VerifierSlashing(k, s, b)), b, w, fees);
    hide HeaderFault, ProposerAllowed, VerifierSlashing, ReplayWorld, VerifyCheckins, Concluded, CacheAfter, Rotated;
    var checked := CheckedWorld(k, s, b).value;
    RotationKeeps(Adopted(k, s.(slashing := VerifierSlashing(k, s, b), cache := CacheAfter(s.(slashing := VerifierSlashing(k, s, b)), b)),
                          b, checked), b.height);
  }

  /** The block of a fallback costs the primary one missed slot; no other counter moves. */
  lemma MissIsRecorded(k: Kernel, s: NodeState, b: Block, a: Address)
    requires b.height == s.latest.height + 1 && b.prevHash == s.latest.hash && Leads(k, s, b.validator)
    ensures var after, primary := VerifierSlashing(k, s, b), Election.Proposer(s.active, k.vrfSeed(s.latest.hash, s.latest.height + 1));
      && primary.Some?
      && Get(after.missedSlots, a) == Get(s.slashing.missedSlots, a) + (if a == primary.value && b.validator != a then 1 else 0)
      && Get(after.assignedSlots, a) == Get(s.slashing.assignedSlots, a) + (if a == primary.value && b.validator != a then 1 else 0)
      && after.jailed == s.slashing.jailed && after.processed == s.slashing.processed
  {
    FallbackIsActive(s.active, BlockSeed(k, b));
    ProposerIsActive(s.active, BlockSeed(k, b));
  }

  /** After an epoch's last block nobody whose term is over is jailed any more, the counters start anew, and offline are those
    * that missed at least 51 of 100 slots. */
  lemma RotationMeaning(s: NodeState, height: nat, a: Address, h: nat)
    requires height > 0 && height % 100 == 0
    ensures var t := Rotated(s, height);
      && t.epoch == s.epoch + 1 && t.slashing.missedSlots == map[] && t.slashing.assignedSlots == map[]
      && (h >= height ==> (t.slashing.IsJailed(a, h) <==> s.slashing.IsJailed(a, h)))
      && (a in t.slashing.jailed ==> t.slashing.IsJailed(a, height))
      && (a in t.offline <==> 100 * Get(s.slashing.missedSlots, a) >= 51 * Get(s.slashing.assignedSlots, a) > 0)
      && t.savedOffline == Some(t.offline) && t.world.uptime == map[]
      && t.world == WithSlashing(s.world.(uptime := map[]), t.slashing)
  {
    hide ValidatorSet.Inputs.Active;
    Slashing.OfflineIff(s.slashing, a);
  }

  /** Enough stake, and no jail term beyond this height. */
  predicate Fit(s: NodeState, height: nat, a: Address) {
    a in s.world.stakes && s.world.stakes[a] >= 10_000_000_000_000 && !s.slashing.IsJailed(a, height)
  }

  /** Whom the rotation makes active while anybody is fit: only fit ones, at their stake, heaviest first, and no fit one is missing
    * but for 21 that all rank ahead. */
  lemma RotationElects(s: NodeState, height: nat, a: Address)
    requires height > 0 && height % 100 == 0 && exists b :: Fit(s, height, b)
    ensures var act := Rotated(s, height).active;
      && 1 <= |act| <= 21
      && (forall i :: 0 <= i < |act| ==> Fit(s, height, act[i].address) && act[i].stake == s.world.stakes[act[i].address])
      && (forall i, j :: 0 <= i < j < |act| ==> ValidatorSet.RanksAhead(act[i], act[j]))
      && (Fit(s, height, a) && a !in Addresses(act) ==> |act| == 21)
  {
    var inp := ValidatorSet.Inputs(s.world.stakes, s.world.reputation, Some(s.slashing.Unjailed(height)), height, COLD_START);
    assert Rotated(s, height).active == inp.Active();
    assert forall b :: Fit(s, height, b) <==> ValidatorSet.MayServe(inp, b);
    hide Rotated, Slashing.State.Unjailed, Fit, ValidatorSet.MayServe, ValidatorSet.Inputs.Active, ValidatorSet.Weighs, ValidatorSet.RanksAhead;
    ValidatorSet.ActiveMeaning(inp, a);
  }

  // ---------------------------------------------------------------- what a hash binds

  /** Two accepted blocks of one hash, whatever nodes accepted them, differ in signatures and events at most. */
  lemma AcceptedHashBinds(k: Kernel, s: NodeState, t: NodeState, b: Block, c: Block, syncB: bool, syncC: bool, clockB: nat, clockC: nat)
    requires Applied(k, s, b, syncB, clockB).1 == Accepted && Applied(k, t, c, syncC, clockC).1 == Accepted
    requires b.hash == c.hash
    requires k.blockHash(b.HashedPart()) == k.blockHash(c.HashedPart()) ==> b.HashedPart() == c.HashedPart()
    ensures c == b.(signatures := c.signatures, events := c.events)
  {
    AcceptsIff(k, s, b, syncB, clockB);
    AcceptsIff(k, t, c, syncC, clockC);
    hide Applied, Attests, Leads, ReplayWorld, Settled, CheckedWorld, Supply, FeeBurn, Admissible;
  }

  /** Everyone in `group` signs both blocks. */
  ghost predicate AllSignBoth(k: Kernel, active: seq<ActiveValidator>, b: Block, c: Block, group: set<Address>) {
    forall a :: a in group ==> Signs(k, active, b, a) && Signs(k, active, c, a)
  }

  /** Two blocks that gossip accepts under the same seven or more validators are both signed by more than a third of them. */
  lemma AcceptedShareSigners(k: Kernel, s: NodeState, t: NodeState, b: Block, c: Block, clockB: nat, clockC: nat)
    requires s.active == t.active && |s.active| >= 7
    requires Applied(k, s, b, false, clockB).1 == Accepted && Applied(k, t, c, false, clockC).1 == Accepted
    ensures exists group :: 3 * |group| > |s.active| && AllSignBoth(k, s.active, b, c, group)
  {
    AcceptsIff(k, s, b, false, clockB);
    AcceptsIff(k, t, c, false, clockC);
    hide Applied, Leads, ReplayWorld, Settled, CheckedWorld, Supply, FeeBurn, MayCarry, Signs;
    var x :| Attests(k, s.active, b, false, x);
    var y :| Attests(k, t.active, c, false, y);
    SignersAreAddresses(k, s.active, b, x);
    SignersAreAddresses(k, s.active, c, y);
    Voting.QuorumsOverlap(s.active, x, y);
    assert AllSignBoth(k, s.active, b, c, x * y);
  }

  lemma SignersAreAddresses(k: Kernel, active: seq<ActiveValidator>, b: Block, ss: set<Address>)
    requires forall a :: a in ss ==> Signs(k, active, b, a)
    ensures ss <= Addresses(active)
  {
  }

  /** So with at most floor((n-1)/3) validators that sign different blocks of one height, gossip accepts only one of them. */
  lemma NoForkByGossip(k: Kernel, s: NodeState, t: NodeState, b: Block, c: Block, clockB: nat, clockC: nat, faulty: set<Address>)
    requires s.active == t.active && |s.active| >= 7 && b.height == c.height
    requires Applied(k, s, b, false, clockB).1 == Accepted && Applied(k, t, c, false, clockC).1 == Accepted
    requires |faulty| <= (|s.active| - 1) / 3
    requires forall a :: Signs(k, s.active, b, a) && Signs(k, s.active, c, a) && b.hash != c.hash ==> a in faulty
    ensures b.hash == c.hash
  {
    hide Applied, Signs;
    AcceptedShareSigners(k, s, t, b, c, clockB, clockC);
    var group :| 3 * |group| > |s.active| && AllSignBoth(k, s.active, b, c, group);
    if b.hash != c.hash {
      Fewer(group, faulty);
    }
  }

  // ---------------------------------------------------------------- votes and offered witnesses

  /** Exactly when a vote counts: for the tip, from an active validator, validly signed, and the voter's first. */
  predicate VoteCounts(k: Kernel, s: NodeState, voter: Address, height: nat, hash: Hash, signature: Signature) {
    && height == s.latest.height && hash == s.latest.hash
    && voter in Addresses(s.active) && k.verifies(voter, hash, signature)
    && voter !in s.pendingVotes && forall i :: 0 <= i < |s.latest.signatures| ==> s.latest.signatures[i].0 != voter
  }

  lemma VoteMeaning(k: Kernel, s: NodeState, voter: Address, height: nat, hash: Hash, signature: Signature)
    ensures var t := Voted(k, s, voter, height, hash, signature);
      if VoteCounts(k, s, voter, height, hash, signature) then
        && t.latest == s.latest.(signatures := s.latest.signatures + [(voter, signature)])
        && t.store == s.store[s.latest.height := t.latest] && t.pendingVotes == s.pendingVotes[voter := signature]
        && t == s.(latest := t.latest, store := t.store, pendingVotes := t.pendingVotes)
      else t == s
  {
    assert voter in Addresses(s.active) <==> IsActive(s.active, voter);
  }

  /** Exactly which offered witnesses enter the cache, and that nothing else changes. */
  predicate Welcome(k: Kernel, s: NodeState, w: Witness) {
    var epoch := s.world.blockHeight / 100;
    && s.world.blockHeight >= 280_500 && w.miner in s.world.miners
    && (w.epoch == epoch || (s.world.blockHeight >= 384_500 && w.epoch + 1 == epoch))
    && w.epoch * 100 <= w.refHeight <= s.latest.height
    && w.refHeight in s.store && s.store[w.refHeight].hash == w.refHash
    && k.checkinVerifies(w.miner, w.epoch, w.refHash, w.signature)
  }

  lemma OfferMeaning(k: Kernel, s: NodeState, w: Witness, e: nat, m: Address)
    ensures var t := Offered(k, s, w);
      && t == s.(cache := t.cache)
      && (m in At(t.cache, e) <==> m in At(s.cache, e) || (Welcome(k, s, w) && e == w.epoch && m == w.miner))
      && (m in At(t.cache, e) ==>
            At(t.cache, e)[m] == if Welcome(k, s, w) && e == w.epoch && m == w.miner then w else At(s.cache, e)[m])
  {
  }
}
