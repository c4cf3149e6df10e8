/** Blocks, world state and the foreign functions a node relies on. */
module NodeTypes {
  import opened Common
  import opened ConsensusTypes
  import Rewards
  import Staking
  import ValidatorSet

  const GAS_FEE: nat := 1_000_000
  const CHECKIN_V3_1_HEIGHT: nat := 384_500
  const MAX_BLOCK_TXS: nat := 500
  const BLOCK_TIME_SECS: nat := 3

  /** Contracts, agents, services and whatever else neither the node nor the rewards read. */
  type Registry(==, 0, !new)
  type Receipts(==, 0, !new)
  /** A transaction of any kind but the three that stake, or one whose payload does not decode. */
  type Call(==, 0, !new)
  type BlockEvent(==, 0, !new)
  /** A serialized world state. */
  type Bytes(==, 0, !new)

  /** What a transaction carries besides its sender and nonce. */
  datatype TxBody =
    | StakeDeposit(amount: nat, validator: Address, commission: nat)
    | StakeWithdraw(amount: nat, validator: Address)
    | StakeClaim
    | Other(call: Call)

  datatype Tx = Tx(from: Address, nonce: nat, body: TxBody)

  datatype Uptime = Uptime(produced: nat, signed: nat, expected: nat)

  /** Tokens and mining accounts, and the rest of the state. */
  datatype Ledger = Ledger(
    balances: map<Address, nat>,
    nonces: map<Address, nat>,
    unbonding: seq<Rewards.Unbonding>,
    bucket: nat,
    accounts: map<Address, Rewards.Miner>,   // of registered miners, but for their last check-in
    delegations: map<Address, Address>,
    commissions: map<Address, Rewards.Bps>,
    registry: Registry)

  /** What serialization skips. */
  datatype Runtime = Runtime(receipts: Receipts, epochCheckins: set<Address>)

  datatype World = World(
    blockHeight: nat,
    blockTimestamp: nat,
    miners: map<Address, nat>,      // registered miner -> epoch of its last check-in
    uptime: map<Address, Uptime>,
    stakes: map<Address, nat>,
    reputation: seq<ValidatorSet.Attestation>,
    jailed: map<Address, nat>,
    missedSlots: map<Address, nat>,
    assignedSlots: map<Address, nat>,
    processed: set<Hash>,
    ledger: Ledger,
    runtime: Runtime)

  datatype Witness = Witness(miner: Address, epoch: nat, refHash: Hash, refHeight: nat, signature: Signature)

  datatype Block = Block(
    height: nat,
    prevHash: Hash,
    timestamp: nat,
    validator: Address,
    transactions: seq<Tx>,
    stateRoot: Hash,
    hash: Hash,
    signatures: seq<(Address, Signature)>,
    events: seq<BlockEvent>,
    checkins: seq<Witness>)
  {
    /** The fields that enter the block hash; witnesses only once V3 is active. */
    function HashedPart(): Header {
      Header(height, prevHash, timestamp, validator, transactions, stateRoot,
                    if height >= CHECKIN_V3_HEIGHT then checkins else [])
    }
  }

  datatype Header = Header(
    height: nat, prevHash: Hash, timestamp: nat, validator: Address,
    transactions: seq<Tx>, stateRoot: Hash, checkins: seq<Witness>)

  datatype Receipt = Receipt(fee: nat, events: seq<BlockEvent>)

  /** Foreign code: the remaining transaction handlers, the events that rewards report, serialization, hashing and signatures. */
  datatype Kernel = Kernel(
    admits: Tx -> bool,      // payload size and signature
    gasFree: Call -> bool,   // agent and miner registration, heartbeats
    handle: (World, Tx, nat) -> (World, Option<seq<BlockEvent>>),
    record: (Registry, Tx) -> Registry,   // activity statistics
    blockRewardEvents: (World, seq<(Address, nat)>, nat) -> seq<BlockEvent>,
    miningRewardEvents: (World, nat) -> seq<BlockEvent>,
    feeEvents: (World, Address, nat) -> seq<BlockEvent>,
    settlementEvents: (World, nat) -> seq<BlockEvent>,
    stateRoot: World -> Hash,
    encode: World -> Bytes,
    decode: Bytes -> Option<World>,
    blockHash: Header -> Hash,
    sign: (Address, Hash) -> Signature,
    verifies: (Address, Hash, Signature) -> bool,
    checkinVerifies: (Address, nat, Hash, Signature) -> bool,
    vrfSeed: (Hash, nat) -> nat)
  {
    function BlockReward(w: World, validators: seq<(Address, nat)>, height: nat): (World, seq<BlockEvent>) {
      (WithBooks(w, Rewards.BlockReward(Books(w), validators, height)), blockRewardEvents(w, validators, height))
    }

    function MiningReward(w: World, height: nat): (World, seq<BlockEvent>) {
      (WithBooks(w, Rewards.MiningReward(Books(w), height)), miningRewardEvents(w, height))
    }

    function DistributeFees(w: World, proposer: Address, fees: nat): (World, seq<BlockEvent>) {
      (WithBooks(w, Rewards.FeesDistributed(Books(w), proposer, fees)), feeEvents(w, proposer, fees))
    }

    function MigrateMiners(w: World): World {
      WithBooks(w, Rewards.Migrated(Books(w)))
    }

    /** A boundary also clears the check-ins of the epoch. */
    function EpochBoundary(w: World, height: nat): (World, seq<BlockEvent>) {
      var settled := WithBooks(w, Rewards.EpochBoundary(Books(w), height));
      (settled.(runtime := settled.runtime.(epochCheckins := Rewards.CheckinsAfter(settled.runtime.epochCheckins, height))),
       settlementEvents(w, height))
    }

    function MinerActivity(w: World, height: nat): World {
      WithBooks(w, Rewards.ActivityUpdated(Books(w), height))
    }

    function Fee(tx: Tx): nat {
      if tx.body.Other? && gasFree(tx.body.call) then 0 else GAS_FEE
    }

    /** Payload size, signature, nonce and gas: what is checked before a transaction reaches its handler. */
    predicate Reaches(w: World, tx: Tx) {
      && admits(tx) && tx.nonce == Get(w.ledger.nonces, tx.from) + 1
      && Get(w.ledger.balances, tx.from) >= Fee(tx)
    }

    function Dispatched(w: World, tx: Tx, index: nat): (World, Option<seq<BlockEvent>>) {
      match tx.body
      case StakeDeposit(amount, v, commission) => Staked(w, Staking.Deposit(Books(w), tx.from, amount, v, commission))
      case StakeWithdraw(amount, v) => Staked(w, Staking.Withdraw(Books(w), tx.from, amount, v, w.blockHeight))
      case StakeClaim => Staked(w, Staking.Claim(Books(w), tx.from, w.blockHeight))
      case Other(_) => handle(w, tx, index)
    }

    /** The fee is taken before the handler runs. If the handler fails it comes back, and nothing else is undone. */
    function ApplyTx(w: World, tx: Tx, index: nat): (World, Option<Receipt>) {
      if !Reaches(w, tx) then (w, None)
      else
        var (w1, events) := Dispatched(Charged(w, tx.from, Fee(tx)), tx, index);
        match events
        case None => (Refunded(w1, tx.from, Fee(tx)), None)
        case Some(es) => (Recorded(w1, tx), Some(Receipt(Fee(tx), es)))
    }

    function Recorded(w: World, tx: Tx): World {
      w.(ledger := w.ledger.(nonces := w.ledger.nonces[tx.from := tx.nonce], registry := record(w.ledger.registry, tx)))
    }

    /** What a handler does to the state, and whether it succeeds, does not depend on the transaction's index. */
    ghost predicate IndexLawful() {
      forall w, tx, i, j ::
        handle(w, tx, i).0 == handle(w, tx, j).0 && (handle(w, tx, i).1 == None <==> handle(w, tx, j).1 == None)
    }

    /** No handler but those that stake creates or destroys tokens, touches the mining rewards, or leaves a delegation of
      * a validator without stake. */
    ghost predicate TokensLawful() {
      && (forall w, tx, i :: Supply(handle(w, tx, i).0) == Supply(w))
      && (forall w, tx, i :: Rewards.KeepsBookings(Books(w), Books(handle(w, tx, i).0)))
      && (forall w, tx, i :: Staking.Backed(Books(w)) ==> Staking.Backed(Books(handle(w, tx, i).0)))
    }

    ghost predicate SignaturesLawful() {
      forall a, h :: verifies(a, h, sign(a, h))
    }

    ghost predicate Lawful() {
      IndexLawful() && TokensLawful() && SignaturesLawful()
    }

    /** Handlers leave nonces alone. */
    ghost predicate NoncesLawful() {
      forall w, tx, i :: handle(w, tx, i).0.ledger.nonces == w.ledger.nonces
    }

    /** Handlers do not touch a registered miner's last check-in; new miners start at zero. */
    ghost predicate CheckinsLawful() {
      forall w, tx, i :: KeepsCheckins(w, handle(w, tx, i).0)
    }
  }

  function WithBalance(w: World, a: Address, x: nat): World {
    w.(ledger := w.ledger.(balances := w.ledger.balances[a := x]))
  }

  function Charged(w: World, a: Address, fee: nat): World
    requires fee <= Get(w.ledger.balances, a)
  {
    if fee == 0 then w else WithBalance(w, a, Get(w.ledger.balances, a) - fee)
  }

  function Refunded(w: World, a: Address, fee: nat): World {
    if fee == 0 then w else WithBalance(w, a, Get(w.ledger.balances, a) + fee)
  }

  /** A world after staking: mining accounts and the bucket stay. */
  function Staked(w: World, o: Staking.Outcome): (World, Option<seq<BlockEvent>>) {
    (w.(ledger := w.ledger.(balances := o.books.balances, unbonding := o.books.unbonding,
                            delegations := o.books.delegations, commissions := o.books.commissions),
        stakes := o.books.stakes),
     if o.ok then Some([]) else None)
  }

  /** The account of a miner that has none yet. */
  const NEW_ACCOUNT := Rewards.Miner(0, 0, false, 0, 0, 0, 0, 0, 0)

  /** Mining accounts with their last check-ins. */
  function Accounts(w: World): map<Address, Rewards.Miner> {
    map m | m in w.miners ::
      (if m in w.ledger.accounts then w.ledger.accounts[m] else NEW_ACCOUNT).(lastCheckin := w.miners[m])
  }

  /** The part of a world that rewards read and write. */
  function Books(w: World): Rewards.Treasury {
    Rewards.Treasury(w.ledger.balances, w.stakes, w.ledger.unbonding, w.ledger.bucket, Accounts(w),
                     w.ledger.delegations, w.ledger.commissions)
  }

  function WithBooks(w: World, t: Rewards.Treasury): World {
    w.(ledger := w.ledger.(balances := t.balances, unbonding := t.unbonding, bucket := t.bucket, accounts := t.miners,
                           delegations := t.delegations, commissions := t.commissions),
       miners := Rewards.Checkins(t.miners), stakes := t.stakes)
  }

  ghost function Supply(w: World): nat {
    Rewards.Supply(Books(w))
  }

  /** The part of the fees nobody receives: what is left of halves and fifths rounded down. */
  function FeeBurn(fees: nat): nat {
    fees - fees * 50 / 100 - fees * 20 / 100
  }

  ghost predicate KeepsCheckins(before: World, after: World) {
    && (forall m :: m in before.miners ==> m in after.miners && after.miners[m] == before.miners[m])
    && (forall m :: m in after.miners && m !in before.miners ==> after.miners[m] == 0)
  }

  predicate IsEpochBoundary(height: nat) {
    height > 0 && height % EPOCH_LENGTH == 0
  }

  predicate IsMinerEpochBoundary(height: nat) {
    height % MINER_EPOCH_LENGTH == 0
  }

  function MinerEpoch(height: nat): nat {
    height / MINER_EPOCH_LENGTH
  }

  /** `saturating_sub(1)`. */
  function Previous(epoch: nat): nat {
    if epoch == 0 then 0 else epoch - 1
  }
}
