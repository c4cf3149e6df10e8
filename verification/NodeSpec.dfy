/** What producing a block and applying a received one do to a node, as functions of its state. */
module NodeSpec {
  import opened Common
  import opened ConsensusTypes
  import opened NodeTypes
  import opened Checkins
  import Election
  import Slashing
  import ValidatorSet

  datatype NodeState = NodeState(
    self: Address,
    genesisHash: Hash,
    world: World,
    store: map<nat, Block>,
    snapshot: Option<Bytes>,
    mempool: seq<Tx>,
    latest: Block,
    active: seq<ActiveValidator>,
    epoch: nat,
    slashing: Slashing.State,
    pendingVotes: map<Address, Signature>,
    offline: set<Address>,
    savedOffline: Option<set<Address>>,   // as persisted at the last epoch rotation
    cache: Cache,
    lastSnapshotHeight: nat,
    txCount: nat)

  datatype Rejection =
    | HeightMismatch
    | PrevHashMismatch
    | InvalidHash
    | FutureTimestamp
    | TimestampRegresses
    | TooManyTransactions
    | InsufficientSignatures
    | ProposerMismatch
    | TransactionFailed
    | BadCheckin(reason: string)
    | StateRootMismatch
    | SupplyViolation

  // ---------------------------------------------------------------- transactions

  /** Stable insertion by (sender, nonce). */
  function InsertTx(tx: Tx, txs: seq<Tx>): (r: seq<Tx>)
    ensures |r| == |txs| + 1
  {
    if txs == [] then [tx]
    else if tx.from < txs[0].from || (tx.from == txs[0].from && tx.nonce < txs[0].nonce) then [tx] + txs
    else [txs[0]] + InsertTx(tx, txs[1..])
  }

  function SortTxs(txs: seq<Tx>): (r: seq<Tx>)
    ensures |r| == |txs|
  {
    if txs == [] then [] else InsertTx(txs[|txs| - 1], SortTxs(txs[..|txs| - 1]))
  }

  /** The transactions of the next block's batch, and those that stay in the mempool. */
  function Batch(mempool: seq<Tx>): seq<Tx> {
    var sorted := SortTxs(mempool);
    if |sorted| > MAX_BLOCK_TXS then sorted[..MAX_BLOCK_TXS] else sorted
  }

  function Excess(mempool: seq<Tx>): seq<Tx> {
    var sorted := SortTxs(mempool);
    if |sorted| > MAX_BLOCK_TXS then sorted[MAX_BLOCK_TXS..] else []
  }

  datatype Execution = Execution(world: World, fees: nat, included: seq<Tx>, events: seq<BlockEvent>)

  /** The producer's loop: a failing transaction is dropped, its index is used up. */
  function Execute(k: Kernel, w: World, txs: seq<Tx>, index: nat): Execution
    decreases |txs|
  {
    if txs == [] then Execution(w, 0, [], [])
    else
      var (w', receipt) := k.ApplyTx(w, txs[0], index);
      var rest := Execute(k, w', txs[1..], index + 1);
      match receipt
      case None => rest
      case Some(r) => Execution(rest.world, r.fee + rest.fees, [txs[0]] + rest.included, r.events + rest.events)
  }

  /** The verifier's loop: the first failing transaction fails the block. */
  function Replay(k: Kernel, w: World, txs: seq<Tx>, index: nat): Option<(World, nat)>
    decreases |txs|
  {
    if txs == [] then Some((w, 0))
    else
      var (w', receipt) := k.ApplyTx(w, txs[0], index);
      if receipt == None then None
      else match Replay(k, w', txs[1..], index + 1)
        case None => None
        case Some((end, fees)) => Some((end, receipt.value.fee + fees))
  }

  // ---------------------------------------------------------------- rewards and uptime

  function RewardedValidators(active: seq<ActiveValidator>, offline: set<Address>): seq<(Address, nat)> {
    if active == [] then []
    else (if active[0].address in offline then [] else [(active[0].address, active[0].weight)])
         + RewardedValidators(active[1..], offline)
  }

  /** Block reward, mining reward, then the collected fees. */
  function Rewarded(k: Kernel, w: World, rewarded: seq<(Address, nat)>, proposer: Address, height: nat, fees: nat)
    : (World, seq<BlockEvent>)
  {
    var (w1, e1) := k.BlockReward(w, rewarded, height);
    var (w2, e2) := k.MiningReward(w1, height);
    var (w3, e3) := k.DistributeFees(w2, proposer, fees);
    (w3, e1 + e2 + e3)
  }

  function UptimeOf(u: map<Address, Uptime>, a: Address): Uptime {
    if a in u then u[a] else Uptime(0, 0, 0)
  }

  function ExpectedBumped(u: map<Address, Uptime>, active: seq<ActiveValidator>, proposer: Address): map<Address, Uptime>
    decreases |active|
  {
    if active == [] then u
    else
      var a := active[0].address;
      ExpectedBumped(if a == proposer then u else u[a := UptimeOf(u, a).(expected := UptimeOf(u, a).expected + 1)],
                     active[1..], proposer)
  }

  function Tracked(w: World, active: seq<ActiveValidator>, proposer: Address): World {
    var u := UptimeOf(w.uptime, proposer);
    w.(uptime := ExpectedBumped(w.uptime[proposer := Uptime(u.produced + 1, u.signed + 1, u.expected + 1)], active, proposer))
  }

  // ---------------------------------------------------------------- check-ins

  /** Witnesses sorted by miner. */
  ghost function InMinerOrder(pending: map<Address, Witness>): seq<Witness> {
    if pending == map[] then []
    else
      var m := LeastOf(pending.Keys);
      [pending[m]] + InMinerOrder(pending - {m})
  }

  function CreditAll(miners: map<Address, nat>, ws: seq<Witness>, epoch: nat): map<Address, nat>
    decreases |ws|
  {
    if ws == [] then miners
    else CreditAll(if ws[0].miner in miners then miners[ws[0].miner := epoch] else miners, ws[1..], epoch)
  }

  /** The one-time migration, then the settlement of the past epoch. */
  function Settled(k: Kernel, w: World, height: nat): (World, seq<BlockEvent>) {
    var w1 := if height == CHECKIN_V3_HEIGHT then k.MigrateMiners(w) else w;
    if IsMinerEpochBoundary(height) then k.EpochBoundary(w1, height) else (w1, [])
  }

  function SettledBeforeV3(k: Kernel, w: World, height: nat): (World, seq<BlockEvent>) {
    var (w1, events) := k.EpochBoundary(w, height);
    (k.MinerActivity(w1, height), events)
  }

  /** Checks (a) to (e) on one witness of a block. */
  function WitnessFault(k: Kernel, miners: map<Address, nat>, store: map<nat, Block>, height: nat, w: Witness): Option<string> {
    var epoch := MinerEpoch(height);
    if w.miner !in miners then Some("checkin from unregistered miner")
    else if height >= CHECKIN_V3_1_HEIGHT && w.epoch != epoch && w.epoch != Previous(epoch) then Some("checkin epoch mismatch")
    else if height < CHECKIN_V3_1_HEIGHT && w.epoch != epoch then Some("checkin epoch mismatch")
    else if w.refHeight < w.epoch * MINER_EPOCH_LENGTH || w.refHeight >= height then Some("checkin ref_block_height out of range")
    else if w.refHeight !in store then Some("checkin references unknown block height")
    else if store[w.refHeight].hash != w.refHash then Some("checkin ref_block_hash mismatch")
    else if !k.checkinVerifies(w.miner, w.epoch, w.refHash, w.signature) then Some("checkin signature invalid")
    else if miners[w.miner] == epoch then Some("duplicate checkin for miner")
    else None
  }

  /** The first witness that fails a check, check (f) against repeated miners included. */
  function FirstFault(k: Kernel, miners: map<Address, nat>, store: map<nat, Block>, height: nat, ws: seq<Witness>, seen: set<Address>)
    : Option<string>
    decreases |ws|
  {
    if ws == [] then None
    else
      var fault := WitnessFault(k, miners, store, height, ws[0]);
      if fault.Some? then fault
      else if ws[0].miner in seen then Some("duplicate miner in same block")
      else FirstFault(k, miners, store, height, ws[1..], seen + {ws[0].miner})
  }

  function AllInserted(c: Cache, ws: seq<Witness>): Cache
    decreases |ws|
  {
    if ws == [] then c else AllInserted(Inserted(c, ws[0]), ws[1..])
  }

  /** The checks on a witness offered by gossip, push or RPC. */
  function OfferFault(k: Kernel, s: NodeState, w: Witness): Option<string> {
    var epoch := MinerEpoch(s.world.blockHeight);
    if w.miner !in s.world.miners then Some("miner not registered")
    else if s.world.blockHeight >= CHECKIN_V3_1_HEIGHT && w.epoch != epoch && w.epoch != Previous(epoch) then Some("epoch mismatch")
    else if s.world.blockHeight < CHECKIN_V3_1_HEIGHT && w.epoch != epoch then Some("epoch mismatch")
    else if w.refHeight < w.epoch * MINER_EPOCH_LENGTH || w.refHeight > s.latest.height then Some("ref_block_height out of range")
    else if w.refHeight !in s.store then Some("unknown block height")
    else if s.store[w.refHeight].hash != w.refHash then Some("ref_block_hash mismatch")
    else if !k.checkinVerifies(w.miner, w.epoch, w.refHash, w.signature) then Some("invalid signature")
    else None
  }

  function Offered(k: Kernel, s: NodeState, w: Witness): NodeState {
    if s.world.blockHeight >= CHECKIN_V3_HEIGHT && OfferFault(k, s, w) == None
    then s.(cache := Inserted(s.cache, w)) else s
  }

  // ---------------------------------------------------------------- slashing state and epochs

  function WithSlashing(w: World, sl: Slashing.State): World {
    w.(jailed := sl.jailed, missedSlots := sl.missedSlots, assignedSlots := sl.assignedSlots, processed := sl.processed)
  }

  function MissedBy(sl: Slashing.State, primary: Address): Slashing.State {
    sl.RecordAssigned(primary).RecordMissed(primary)
  }

  /** Epoch rotation after a block at `height` has been accepted. */
  ghost function Rotated(s: NodeState, height: nat): NodeState {
    if !IsEpochBoundary(height) then s
    else
      var freed := s.slashing.Unjailed(height);
      var inputs := ValidatorSet.Inputs(s.world.stakes, s.world.reputation, Some(freed), height, COLD_START);
      var slashing := freed.CountersReset();
      s.(offline := s.slashing.Offline(),
         savedOffline := Some(s.slashing.Offline()),
         active := inputs.Active(),
         epoch := s.epoch + 1,
         slashing := slashing,
         world := WithSlashing(s.world.(uptime := map[]), slashing))
  }

  // ---------------------------------------------------------------- producing

  function SeedOf(k: Kernel, s: NodeState): nat {
    k.vrfSeed(s.latest.hash, s.latest.height + 1)
  }

  predicate IsPrimary(k: Kernel, s: NodeState) {
    Election.Proposer(s.active, SeedOf(k, s)) == Some(s.self)
  }

  /** Only after twice the block time on the monotonic clock. */
  predicate IsFallback(k: Kernel, s: NodeState, elapsed: nat) {
    elapsed > BLOCK_TIME_SECS * 2 && Election.Fallback(s.active, SeedOf(k, s)) == Some(s.self)
  }

  /** The slot counters a producer commits to: a fallback records the primary's miss. */
  function ProducerSlashing(k: Kernel, s: NodeState): Slashing.State {
    if IsPrimary(k, s) then s.slashing
    else match Election.Proposer(s.active, SeedOf(k, s))
      case None => s.slashing
      case Some(primary) => MissedBy(s.slashing, primary)
  }

  function ProducerRun(k: Kernel, s: NodeState, now: nat): Execution {
    Execute(k, s.world.(blockHeight := s.latest.height + 1, blockTimestamp := now), Batch(s.mempool), 0)
  }

  /** Check-in processing of a producer: the world, the witnesses it includes, events, and the swept cache. */
  datatype OwnCheckins = OwnCheckins(world: World, checkins: seq<Witness>, events: seq<BlockEvent>, cache: Cache)

  ghost function IncludeCheckins(k: Kernel, w: World, cache: Cache, height: nat): OwnCheckins {
    if height >= CHECKIN_V3_HEIGHT then
      var epoch := MinerEpoch(height);
      var (w1, events) := Settled(k, w, height);
      var ws := InMinerOrder(Pending(cache, epoch, w1.miners, height >= CHECKIN_V3_1_HEIGHT));
      OwnCheckins(w1.(miners := CreditAll(w1.miners, ws, epoch)), ws, events, Swept(cache, epoch))
    else
      var (w1, events) := SettledBeforeV3(k, w, height);
      OwnCheckins(w1, [], events, cache)
  }

  datatype Production = Production(world: World, included: seq<Tx>, checkins: seq<Witness>, events: seq<BlockEvent>, cache: Cache)

  /** The producer's world after transactions, rewards and uptime, and the reward events. */
  function ProducerBody(k: Kernel, s: NodeState, now: nat): (World, seq<BlockEvent>) {
    var height, run := s.latest.height + 1, ProducerRun(k, s, now);
    var (w, events) := Rewarded(k, run.world, RewardedValidators(s.active, s.offline), s.self, height, run.fees);
    (Tracked(w, s.active, s.self), events)
  }

  /** Everything a producer does to the world up to the state root. */
  ghost function ProduceWorld(k: Kernel, s: NodeState, now: nat): Production {
    var run, (body, events) := ProducerRun(k, s, now), ProducerBody(k, s, now);
    var own := IncludeCheckins(k, body, s.cache, s.latest.height + 1);
    Production(WithSlashing(own.world, ProducerSlashing(k, s)), run.included, own.checkins,
               run.events + events + own.events, own.cache)
  }

  ghost function ProducedBlock(k: Kernel, s: NodeState, now: nat): Block {
    var p := ProduceWorld(k, s, now);
    var b := Block(s.latest.height + 1, s.latest.hash, now, s.self, p.included, k.stateRoot(p.world), 0, [], p.events, p.checkins);
    var h := k.blockHash(b.HashedPart());
    b.(hash := h, signatures := [(s.self, k.sign(s.self, h))])
  }

  /** The node once `b`, which leads to `world`, is its latest block. */
  function Adopted(k: Kernel, s: NodeState, b: Block, world: World): NodeState {
    s.(world := world, store := s.store[b.height := b], snapshot := Some(k.encode(world)), latest := b,
       pendingVotes := map[], txCount := s.txCount + |b.transactions|)
  }

  ghost function AfterProducing(k: Kernel, s: NodeState, now: nat): NodeState {
    var p, b := ProduceWorld(k, s, now), ProducedBlock(k, s, now);
    Rotated(Adopted(k, s.(mempool := Excess(s.mempool), slashing := ProducerSlashing(k, s), cache := p.cache), b, p.world),
            b.height)
  }

  predicate MayProduce(k: Kernel, s: NodeState, elapsed: nat) {
    IsPrimary(k, s) || IsFallback(k, s, elapsed)
  }

  // ---------------------------------------------------------------- applying

  ghost function ValidSigners(k: Kernel, active: seq<ActiveValidator>, b: Block): set<Address> {
    set i | 0 <= i < |b.signatures| && IsActive(active, b.signatures[i].0)
            && k.verifies(b.signatures[i].0, b.hash, b.signatures[i].1) :: b.signatures[i].0
  }

  function RequiredSigners(n: nat): nat {
    if n < 7 then 1 else Quorum(n)
  }

  ghost predicate EnoughSigners(k: Kernel, active: seq<ActiveValidator>, b: Block, isSync: bool) {
    var signers := ValidSigners(k, active, b);
    |signers| >= RequiredSigners(|active|) || (isSync && b.validator in signers)
  }

  /** The checks made before anything changes. */
  ghost function HeaderFault(k: Kernel, s: NodeState, b: Block, isSync: bool, clock: nat): Option<Rejection> {
    if b.height != s.latest.height + 1 then Some(HeightMismatch)
    else if b.prevHash != s.latest.hash then Some(PrevHashMismatch)
    else if b.hash != k.blockHash(b.HashedPart()) then Some(InvalidHash)
    else if b.timestamp > clock + 30 then Some(FutureTimestamp)
    else if b.timestamp < s.latest.timestamp then Some(TimestampRegresses)
    else if |b.transactions| > MAX_BLOCK_TXS then Some(TooManyTransactions)
    else if !EnoughSigners(k, s.active, b, isSync) then Some(InsufficientSignatures)
    else None
  }

  function BlockSeed(k: Kernel, b: Block): nat {
    k.vrfSeed(b.prevHash, b.height)
  }

  predicate ProposerAllowed(k: Kernel, s: NodeState, b: Block) {
    var expected := Election.Proposer(s.active, BlockSeed(k, b));
    expected == None || expected == Some(b.validator) || Election.Fallback(s.active, BlockSeed(k, b)) == Some(b.validator)
  }

  /** The slot counters a verifier uses for the state root. They are updated before the body is checked. */
  function VerifierSlashing(k: Kernel, s: NodeState, b: Block): Slashing.State {
    match Election.Proposer(s.active, BlockSeed(k, b))
    case None => s.slashing
    case Some(expected) => if b.validator == expected then s.slashing else MissedBy(s.slashing, expected)
  }

  /** The state clone after transactions, rewards and uptime, with the fees collected. */
  function ReplayWorld(k: Kernel, s: NodeState, b: Block): Option<(World, nat)> {
    match Replay(k, s.world.(blockHeight := b.height, blockTimestamp := b.timestamp), b.transactions, 0)
    case None => None
    case Some((w, fees)) =>
      var (w1, _) := Rewarded(k, w, RewardedValidators(s.active, s.offline), b.validator, b.height, fees);
      Some((Tracked(w1, s.active, b.validator), fees))
  }

  /** Check-in processing of a received block: the state clone, or the reason to refuse. */
  function VerifyCheckins(k: Kernel, w: World, store: map<nat, Block>, height: nat, ws: seq<Witness>): Result<World, string> {
    if height >= CHECKIN_V3_HEIGHT then
      var w1 := Settled(k, w, height).0;
      match FirstFault(k, w1.miners, store, height, ws, {})
      case Some(why) => Err(why)
      case None => Ok(w1.(miners := CreditAll(w1.miners, ws, MinerEpoch(height))))
    else if ws != [] then Err("checkin_witnesses not allowed before V3 activation")
    else Ok(SettledBeforeV3(k, w, height).0)
  }

  datatype Verdict = Accepted | Refused(why: Rejection)

  /** The node after applying a block, refused or not, and the verdict. */
  ghost function Applied(k: Kernel, s: NodeState, b: Block, isSync: bool, clock: nat): (NodeState, Verdict) {
    var fault := HeaderFault(k, s, b, isSync, clock);
    if fault.Some? then (s, Refused(fault.value))
    else if !ProposerAllowed(k, s, b) then (s, Refused(ProposerMismatch))
    else
      var slashing := VerifierSlashing(k, s, b);
      match ReplayWorld(k, s, b)
      case None => (s.(slashing := slashing), Refused(TransactionFailed))
      case Some((w, fees)) => Concluded(k, s.(slashing := slashing), b, w, fees)
  }

  /** The second half: check-ins, state root, supply, and acceptance. */
  ghost function Concluded(k: Kernel, s: NodeState, b: Block, w: World, fees: nat): (NodeState, Verdict) {
    match VerifyCheckins(k, w, s.store, b.height, b.checkins)
    case Err(why) => (s, Refused(BadCheckin(why)))
    case Ok(w1) =>
      var cache := if b.height >= CHECKIN_V3_HEIGHT then AllInserted(s.cache, b.checkins) else s.cache;
      var world := WithSlashing(w1, s.slashing);
      if k.stateRoot(world) != b.stateRoot then (s.(cache := cache), Refused(StateRootMismatch))
      else if Supply(world) + FeeBurn(fees) != Supply(s.world) then (s.(cache := cache), Refused(SupplyViolation))
      else
        (Rotated(Adopted(k, s.(cache := cache), b, world), b.height), Accepted)
  }

  // ---------------------------------------------------------------- votes

  /** A vote for the latest block adds its signature to it, once per active validator. */
  function Voted(k: Kernel, s: NodeState, voter: Address, height: nat, hash: Hash, signature: Signature): NodeState {
    if height != s.latest.height || hash != s.latest.hash then s
    else if !IsActive(s.active, voter) || voter in s.pendingVotes then s
    else if exists i :: 0 <= i < |s.latest.signatures| && s.latest.signatures[i].0 == voter then s
    else if !k.verifies(voter, hash, signature) then s
    else
      var b := s.latest.(signatures := s.latest.signatures + [(voter, signature)]);
      s.(pendingVotes := s.pendingVotes[voter := signature], latest := b, store := s.store[b.height := b])
  }
}
