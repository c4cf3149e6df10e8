/** Runs of a whole network: nodes stay in lockstep, and no check-in counts twice. */
module NodeRuns {
  import opened Common
  import opened ConsensusTypes
  import opened NodeTypes
  import opened Checkins
  import opened NodeSpec
  import opened Bookkeeping
  import opened Batches
  import opened Agreement
  import Slashing
  import ValidatorSet
  import Voting

  // ---------------------------------------------------------------- what each step keeps of one node

  /** All that `FirstFault` establishes when it finds none. */
  lemma {:induction false} FaultFree(k: Kernel, miners: map<Address, nat>, store: map<nat, Block>, height: nat, ws: seq<Witness>, seen: set<Address>)
    requires FirstFault(k, miners, store, height, ws, seen) == None
    ensures forall i :: 0 <= i < |ws| ==> WitnessFault(k, miners, store, height, ws[i]) == None && ws[i].miner !in seen
    ensures forall i, j :: 0 <= i < j < |ws| ==> ws[i].miner != ws[j].miner
    decreases |ws|
  {
    if ws != [] {
      FaultFree(k, miners, store, height, ws[1..], seen + {ws[0].miner});
      forall i | 0 <= i < |ws|
        ensures WitnessFault(k, miners, store, height, ws[i]) == None && ws[i].miner !in seen
        ensures i > 0 ==> ws[i].miner != ws[0].miner
      {
        if i > 0 { assert ws[i] == ws[1..][i - 1]; }
      }
      forall i, j | 0 <= i < j < |ws|
        ensures ws[i].miner != ws[j].miner
      {
        if i > 0 { assert ws[i] == ws[1..][i - 1] && ws[j] == ws[1..][j - 1]; }
      }
    }
  }

  lemma {:induction false} InsertedStayGrounded(k: Kernel, s: NodeState, c: Cache, ws: seq<Witness>)
    requires AllGrounded(k, s, c) && forall i :: 0 <= i < |ws| ==> Grounded(k, s, ws[i])
    ensures AllGrounded(k, s, AllInserted(c, ws))
    decreases |ws|
  {
    if ws != [] {
      InsertedStayGrounded(k, s, Inserted(c, ws[0]), ws[1..]);
    }
  }

  /** Witnesses that pass a block's checks are grounded for the node that checked them. */
  lemma VerifiedAreGrounded(k: Kernel, s: NodeState, w: World, ws: seq<Witness>)
    requires s.latest.height + 1 >= CHECKIN_V3_HEIGHT && VerifyCheckins(k, w, s.store, s.latest.height + 1, ws).Ok?
    ensures forall i :: 0 <= i < |ws| ==> Grounded(k, s, ws[i])
  {
    hide Books, WithBooks;
    FaultFree(k, Settled(k, w, s.latest.height + 1).0.miners, s.store, s.latest.height + 1, ws, {});
  }

  /** The checks of a received block leave the books in order, too. */
  lemma VerifiedBooks(k: Kernel, w: World, store: map<nat, Block>, height: nat, ws: seq<Witness>)
    requires Booked(w, height) && VerifyCheckins(k, w, store, height, ws).Ok?
    ensures var v := VerifyCheckins(k, w, store, height, ws).value; KeepsStakes(w, v, height) && Booked(v, height + 1)
  {
    hide Booked, Supply;
    SettledBooks(k, w, height);
    if height >= CHECKIN_V3_HEIGHT {
      var w1 := Settled(k, w, height).0;
      CreditsKeepKeys(w1.miners, ws, MinerEpoch(height));
      CreditedBooks(w1, CreditAll(w1.miners, ws, MinerEpoch(height)));
    }
  }

  lemma ReplayWorldBooks(k: Kernel, s: NodeState, b: Block)
    requires k.TokensLawful() && Booked(s.world, b.height) && ReplayWorld(k, s, b).Some?
    ensures Booked(ReplayWorld(k, s, b).value.0, b.height)
  {
    hide Booked, Supply, FeeBurn, Kernel.TokensLawful, Rewarded, KeepsStakes, Replay;
    var start := s.world.(blockHeight := b.height, blockTimestamp := b.timestamp);
    OtherFieldsDoNotMatter(start, s.world);
    ReplayBooks(k, start, b.transactions, 0, b.height);
    var (w, fees) := Replay(k, start, b.transactions, 0).value;
    var rewarded := RewardedValidators(s.active, s.offline);
    RewardedBooks(k, w, rewarded, b.validator, b.height, fees);
    OtherFieldsDoNotMatter(Rewarded(k, w, rewarded, b.validator, b.height, fees).0, ReplayWorld(k, s, b).value.0);
  }

  /** A longer chain with the same past keeps a cache grounded. */
  lemma AdoptionStaysRooted(k: Kernel, s: NodeState, b: Block, world: World)
    requires Rooted(k, s) && b.height == s.latest.height + 1
    ensures Rooted(k, Rotated(Adopted(k, s, b, world), b.height))
  {
    var t := Adopted(k, s, b, world);
    forall e, m | e in s.cache && m in s.cache[e]
      ensures Grounded(k, t, s.cache[e][m])
    {
      assert Grounded(k, s, s.cache[e][m]);
    }
  }

  lemma AdoptionBooks(k: Kernel, s: NodeState, b: Block, world: World)
    requires Booked(world, b.height + 1)
    ensures var t := Rotated(Adopted(k, s, b, world), b.height);
      t.latest == b && Booked(t.world, t.latest.height + 1)
  {
    var a := Adopted(k, s, b, world);
    RotationKeepsLedger(a, b.height);
    hide Booked, Rotated;
    OtherFieldsDoNotMatter(Rotated(a, b.height).world, world);
  }

  lemma RotationKeepsLedger(s: NodeState, height: nat)
    ensures var t := Rotated(s, height);
      && t.latest == s.latest && t.world.ledger == s.world.ledger
      && t.world.miners == s.world.miners && t.world.stakes == s.world.stakes
  {
    hide ValidatorSet.Inputs.Active, Slashing.State.Offline, Slashing.State.Expired;
  }

  lemma CacheReplaced(k: Kernel, s: NodeState, cache: Cache)
    requires Rooted(k, s) && AllGrounded(k, s, cache)
    ensures Rooted(k, s.(cache := cache))
  {
    forall e, m | e in cache && m in cache[e]
      ensures Grounded(k, s.(cache := cache), cache[e][m])
    {
      assert Grounded(k, s, cache[e][m]);
    }
  }

  lemma ConclusionStaysRooted(k: Kernel, s: NodeState, b: Block, w: World, fees: nat)
    requires Rooted(k, s) && b.height == s.latest.height + 1
    ensures Rooted(k, Concluded(k, s, b, w, fees).0)
  {
    hide VerifyCheckins, Rotated, Adopted, Supply, FeeBurn, AllInserted, AllGrounded;
    var checked := VerifyCheckins(k, w, s.store, b.height, b.checkins);
    if checked.Ok? {
      if b.height >= CHECKIN_V3_HEIGHT {
        VerifiedAreGrounded(k, s, w, b.checkins);
        InsertedStayGrounded(k, s, s.cache, b.checkins);
      }
      var t := s.(cache := CacheAfter(s, b));
      CacheReplaced(k, s, CacheAfter(s, b));
      AdoptionStaysRooted(k, t, b, WithSlashing(checked.value, s.slashing));
    }
  }

  lemma ConclusionBooks(k: Kernel, s: NodeState, b: Block, w: World, fees: nat)
    requires b.height == s.latest.height + 1
    requires Booked(w, b.height) && Booked(s.world, b.height)
    ensures var t := Concluded(k, s, b, w, fees).0; Booked(t.world, t.latest.height + 1)
  {
    hide Booked, Supply, Rotated, Adopted, VerifyCheckins, AllInserted;
    var checked := VerifyCheckins(k, w, s.store, b.height, b.checkins);
    if checked.Ok? {
      VerifiedBooks(k, w, s.store, b.height, b.checkins);
      var world := WithSlashing(checked.value, s.slashing);
      OtherFieldsDoNotMatter(world, checked.value);
      AdoptionBooks(k, s.(cache := CacheAfter(s, b)), b, world);
    }
  }

  /** Applying a block, accepted or refused, keeps a node sound. */
  lemma AppliedStaysSound(k: Kernel, s: NodeState, b: Block, isSync: bool, clock: nat)
    requires k.TokensLawful() && Sound(k, s)
    ensures Sound(k, Applied(k, s, b, isSync, clock).0)
  {
    hide Booked, Rooted, Kernel.TokensLawful, Applied, Concluded, ReplayWorld, VerifierSlashing;
    AppliedShape(k, s, b, isSync, clock);
    var t := s.(slashing := VerifierSlashing(k, s, b));
    SlashingDoesNotMatter(k, s, t);
    if Applied(k, s, b, isSync, clock).0 != s && Applied(k, s, b, isSync, clock).0 != t {
      var (w, fees) := ReplayWorld(k, s, b).value;
      ReplayWorldBooks(k, s, b);
      ConclusionStaysRooted(k, t, b, w, fees);
      ConclusionBooks(k, t, b, w, fees);
    }
  }

  /** A block either stops at an early check, or goes through to its conclusion. */
  lemma AppliedShape(k: Kernel, s: NodeState, b: Block, isSync: bool, clock: nat)
    ensures var after, t := Applied(k, s, b, isSync, clock).0, s.(slashing := VerifierSlashing(k, s, b));
      || after == s || after == t
      || (b.height == s.latest.height + 1 && ReplayWorld(k, s, b).Some?
          && after == Concluded(k, t, b, ReplayWorld(k, s, b).value.0, ReplayWorld(k, s, b).value.1).0)
  {
    hide EnoughSigners, ProposerAllowed, VerifierSlashing, ReplayWorld, Concluded;
  }

  lemma SlashingDoesNotMatter(k: Kernel, s: NodeState, t: NodeState)
    requires Sound(k, s) && t == s.(slashing := t.slashing)
    ensures Sound(k, t)
  {
    hide Booked;
  }

  lemma ProducingStaysSound(k: Kernel, s: NodeState, now: nat)
    requires k.TokensLawful() && Sound(k, s)
    ensures Sound(k, AfterProducing(k, s, now))
  {
    hide Booked, Kernel.TokensLawful, ProduceWorld, Rotated, Adopted, Rooted, Supply, KeepsStakes, LostTokens;
    ProductionMeetsSupplyCheck(k, s, now);
    var p, b := ProduceWorld(k, s, now), ProducedBlock(k, s, now);
    var t := s.(mempool := Excess(s.mempool), slashing := ProducerSlashing(k, s), cache := p.cache);
    SweptStaysRooted(k, s, t, p.cache, now);
    AdoptionStaysRooted(k, t, b, p.world);
    AdoptionBooks(k, t, b, p.world);
  }

  lemma SweptStaysRooted(k: Kernel, s: NodeState, t: NodeState, cache: Cache, now: nat)
    requires Rooted(k, s) && cache == ProduceWorld(k, s, now).cache
    requires t == s.(mempool := t.mempool, slashing := t.slashing, cache := cache)
    ensures Rooted(k, t)
  {
    forall e, m | e in cache && m in cache[e]
      ensures e in s.cache && m in s.cache[e] && cache[e][m] == s.cache[e][m]
    {
    }
    forall e, m | e in cache && m in cache[e]
      ensures Grounded(k, t, cache[e][m])
    {
      assert Grounded(k, s, s.cache[e][m]);
    }
  }

  lemma OfferStaysSound(k: Kernel, s: NodeState, w: Witness)
    requires Sound(k, s)
    ensures Sound(k, Offered(k, s, w)) && Agree(s, Offered(k, s, w))
  {
    if Offered(k, s, w) != s {
      assert Grounded(k, s, w);
      InsertedStayGrounded(k, s, s.cache, [w]);
      assert AllInserted(s.cache, [w]) == Inserted(s.cache, w) by { assert [w][1..] == []; }
    }
  }

  lemma VoteStaysSound(k: Kernel, s: NodeState, voter: Address, height: nat, hash: Hash, signature: Signature)
    requires Sound(k, s)
    ensures Sound(k, Voted(k, s, voter, height, hash, signature)) && Agree(s, Voted(k, s, voter, height, hash, signature))
  {
    var t := Voted(k, s, voter, height, hash, signature);
    forall e, m | e in t.cache && m in t.cache[e]
      ensures Grounded(k, t, t.cache[e][m])
    {
      assert Grounded(k, s, s.cache[e][m]);
    }
  }

  // ---------------------------------------------------------------- the network

  type Network = seq<NodeState>

  /** How one node receives the round's block: by sync or gossip, at which clock, with which signatures on it. */
  datatype Delivery = Delivery(isSync: bool, clock: nat, signatures: seq<(Address, Signature)>)

  datatype Round =
    | Produce(producer: nat, now: nat, elapsed: nat, deliveries: seq<Delivery>)
    | Offer(node: nat, entry: Witness)
    | Vote(node: nat, voter: Address, height: nat, hash: Hash, signature: Signature)
    | Mempool(node: nat, txs: seq<Tx>)

  ghost predicate Produces(k: Kernel, ns: Network, r: Round) {
    r.Produce? && r.producer < |ns| && |r.deliveries| == |ns| && MayProduce(k, ns[r.producer], r.elapsed)
  }

  ghost function Delivered(k: Kernel, ns: Network, r: Round, i: nat): Block
    requires Produces(k, ns, r) && i < |ns|
  {
    ProducedBlock(k, ns[r.producer], r.now).(signatures := r.deliveries[i].signatures)
  }

  ghost function NodeAfter(k: Kernel, ns: Network, r: Round, i: nat): NodeState
    requires i < |ns|
  {
    match r
    case Produce(producer, now, _, deliveries) =>
      if !Produces(k, ns, r) then ns[i]
      else if i == producer then AfterProducing(k, ns[i], now)
      else Applied(k, ns[i], Delivered(k, ns, r, i), deliveries[i].isSync, deliveries[i].clock).0
    case Offer(node, w) => if i == node then Offered(k, ns[i], w) else ns[i]
    case Vote(node, voter, height, hash, signature) => if i == node then Voted(k, ns[i], voter, height, hash, signature) else ns[i]
    case Mempool(node, txs) => if i == node then ns[i].(mempool := txs) else ns[i]
  }

  ghost function Step(k: Kernel, ns: Network, r: Round): (next: Network)
    ensures |next| == |ns|
  {
    seq(|ns|, i requires 0 <= i < |ns| => NodeAfter(k, ns, r, i))
  }

  ghost function Run(k: Kernel, ns: Network, rounds: seq<Round>): (end: Network)
    ensures |end| == |ns|
  {
    if rounds == [] then ns else Step(k, Run(k, ns, rounds[..|rounds| - 1]), rounds[|rounds| - 1])
  }

  /** Every block's refused transactions leave no trace, and it reaches every node, signed by its producer, in time, with
    * enough signatures unless syncing. */
  ghost predicate Fair(k: Kernel, ns: Network, r: Round) {
    Produces(k, ns, r) ==>
      && LeavesNoTrace(k, ns[r.producer], r.now)
      && forall i :: 0 <= i < |ns| && i != r.producer ==>
        && CarriesBlock(k, ns[r.producer], r.now, Delivered(k, ns, r, i))
        && Timely(ns[r.producer], r.now, r.deliveries[i].clock)
        && EnoughSigners(k, ns[i].active, Delivered(k, ns, r, i), r.deliveries[i].isSync)
  }

  ghost predicate FairRun(k: Kernel, ns: Network, rounds: seq<Round>) {
    rounds != [] ==>
      FairRun(k, ns, rounds[..|rounds| - 1]) && Fair(k, Run(k, ns, rounds[..|rounds| - 1]), rounds[|rounds| - 1])
  }

  ghost predicate InLockstep(k: Kernel, ns: Network) {
    && (forall i :: 0 <= i < |ns| ==> Sound(k, ns[i]))
    && (forall i, j :: 0 <= i < |ns| && 0 <= j < |ns| ==> Agree(ns[i], ns[j]))
  }

  lemma AgreeThrough(p: NodeState, a: NodeState, b: NodeState)
    requires Agree(p, a) && Agree(p, b)
    ensures Agree(a, b)
  {
  }

  lemma MempoolDoesNotMatter(k: Kernel, s: NodeState, txs: seq<Tx>)
    requires Sound(k, s)
    ensures Sound(k, s.(mempool := txs))
  {
    hide Booked;
    CacheReplaced(k, s.(mempool := txs), s.cache);
  }

  lemma NodeStaysSound(k: Kernel, ns: Network, r: Round, i: nat)
    requires k.TokensLawful() && InLockstep(k, ns) && i < |ns|
    ensures Sound(k, NodeAfter(k, ns, r, i))
  {
    hide Booked, AllGrounded, Kernel.TokensLawful, AfterProducing, Applied, Offered, Voted, MayProduce;
    assert Sound(k, ns[i]);
    match r
    case Produce(producer, now, _, deliveries) =>
      if Produces(k, ns, r) {
        if i == producer {
          ProducingStaysSound(k, ns[i], now);
        } else {
          AppliedStaysSound(k, ns[i], Delivered(k, ns, r, i), deliveries[i].isSync, deliveries[i].clock);
        }
      }
    case Offer(node, w) => OfferStaysSound(k, ns[i], w);
    case Vote(node, voter, height, hash, signature) => VoteStaysSound(k, ns[i], voter, height, hash, signature);
    case Mempool(node, txs) => MempoolDoesNotMatter(k, ns[i], txs);
  }

  /** After a round every node agrees with one of them: the producer, or the node as it was. */
  lemma NodeStaysInStep(k: Kernel, ns: Network, r: Round, i: nat)
    requires k.Lawful() && InLockstep(k, ns) && Fair(k, ns, r) && i < |ns|
    ensures Produces(k, ns, r) ==> Agree(AfterProducing(k, ns[r.producer], r.now), NodeAfter(k, ns, r, i))
    ensures !Produces(k, ns, r) ==> Agree(ns[i], NodeAfter(k, ns, r, i))
  {
    hide Sound, MayProduce, AfterProducing, Applied, Offered, Voted, CarriesBlock, LeavesNoTrace, EnoughSigners, Timely, Kernel.Lawful;
    assert Sound(k, ns[i]) && Agree(ns[i], ns[i]);
    if Produces(k, ns, r) {
      if i != r.producer {
        var p, d := ns[r.producer], r.deliveries[i];
        ProducedBlockIsAccepted(k, p, ns[i], r.now, r.elapsed, Delivered(k, ns, r, i), d.isSync, d.clock);
      }
    } else if r.Offer? {
      OfferStaysSound(k, ns[i], r.entry);
    } else if r.Vote? {
      VoteStaysSound(k, ns[i], r.voter, r.height, r.hash, r.signature);
    }
  }

  lemma StepKeepsLockstep(k: Kernel, ns: Network, r: Round)
    requires k.Lawful() && InLockstep(k, ns) && Fair(k, ns, r)
    ensures InLockstep(k, Step(k, ns, r))
  {
    hide NodeAfter, AfterProducing, Sound, SameChain;
    var next := Step(k, ns, r);
    assert forall i :: 0 <= i < |ns| ==> next[i] == NodeAfter(k, ns, r, i);
    forall i | 0 <= i < |ns|
      ensures Sound(k, next[i])
    {
      NodeStaysSound(k, ns, r, i);
    }
    forall i, j | 0 <= i < |ns| && 0 <= j < |ns|
      ensures Agree(next[i], next[j])
    {
      NodeStaysInStep(k, ns, r, i);
      NodeStaysInStep(k, ns, r, j);
      if Produces(k, ns, r) {
        AgreeThrough(AfterProducing(k, ns[r.producer], r.now), next[i], next[j]);
      } else {
        AgreeThrough(ns[i], ns[j], next[i]);
        AgreeThrough(ns[j], next[i], next[j]);
      }
    }
  }

  /** Over every fair run, whoever produces, all nodes keep the same state, validators, counters and chain. */
  lemma {:induction false} NetworkStaysInLockstep(k: Kernel, ns: Network, rounds: seq<Round>)
    requires k.Lawful() && InLockstep(k, ns) && FairRun(k, ns, rounds)
    ensures InLockstep(k, Run(k, ns, rounds))
  {
    if rounds != [] {
      NetworkStaysInLockstep(k, ns, rounds[..|rounds| - 1]);
      StepKeepsLockstep(k, Run(k, ns, rounds[..|rounds| - 1]), rounds[|rounds| - 1]);
    }
  }

  /** Two blocks accepted by gossip under the same seven or more validators share more than a third as signers. */
  lemma GossipQuorumsOverlap(k: Kernel, s: NodeState, t: NodeState, b: Block, c: Block, clockB: nat, clockC: nat)
    requires s.active == t.active && |s.active| >= 7
    requires Applied(k, s, b, false, clockB).1 == Accepted && Applied(k, t, c, false, clockC).1 == Accepted
    ensures 3 * |ValidSigners(k, s.active, b) * ValidSigners(k, s.active, c)| > |s.active|
  {
    hide Concluded, ReplayWorld, VerifierSlashing, ProposerAllowed, Quorum;
    assert EnoughSigners(k, s.active, b, false) && EnoughSigners(k, t.active, c, false);
    SignersAreActive(k, s.active, b);
    SignersAreActive(k, s.active, c);
    hide ValidSigners, Applied;
    Voting.QuorumsOverlap(s.active, ValidSigners(k, s.active, b), ValidSigners(k, s.active, c));
  }

  lemma SignersAreActive(k: Kernel, active: seq<ActiveValidator>, b: Block)
    ensures ValidSigners(k, active, b) <= Addresses(active)
  {
  }
}
