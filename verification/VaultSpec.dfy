/** The reward vault as a ledger of typed tables: what each entry point does to it. */
module VaultSpec {
  import opened Common
  import opened Bytes

  const SECONDS_PER_DAY: nat := 86_400

  type Account = a: seq<byte> | |a| == 32 witness seq(32, i => 0)

  datatype Config = Config(owner: Account, dailyCap: u128, minGames: u64, paused: bool)

  /** The tables the contract keeps in storage; no config before `init`. */
  datatype Vault = Vault(
    config: Option<Config>,
    platforms: set<Account>,
    nonces: map<Account, u64>,
    claimed: map<(Account, u64), u128>)
  {
    predicate Paused() {
      config.Some? && config.value.paused
    }

    function DailyCap(): u128 {
      if config.Some? then config.value.dailyCap else 0
    }

    predicate IsOwner(a: Account) {
      config.Some? && config.value.owner == a
    }
  }

  const EMPTY := Vault(None, {}, map[], map[])

  datatype State = State(vault: Vault, balances: map<Account, u128>)

  datatype Op =
    | Init(owner: Account, dailyCap: u128, minGames: u64, platforms: seq<Account>)
    | Fund
    | Claim(recipient: Account, amount: u128, nonce: u64)
    | SetDailyCap(newCap: u128)
    | AddPlatform(platform: Account)
    | RemovePlatform(platform: Account)
    | Pause
    | Unpause
    | Withdraw(sum: u128)
    | Cleanup(beforeDay: u32, addrs: seq<Account>)

  datatype Call = Call(caller: Account, value: u128, timestamp: u64, op: Op)

  /** Success with the new state, an error returned, or a panic. Only the first has an effect: the VM reverts the others. */
  datatype Outcome =
    | Done(state: State)
    | Refused(reason: string)
    | Panicked(message: string)

  function Day(timestamp: u64): (d: u64) {
    var d := timestamp / SECONDS_PER_DAY;
    assert d <= timestamp;
    d
  }

  /** The balances after a transfer from the contract; nothing when the recipient's balance overflows. */
  function Transferred(balances: map<Account, u128>, contract: Account, to: Account, amount: u128): Option<map<Account, u128>>
    requires Get(balances, contract) >= amount
  {
    var paid: map<Account, u128> := balances[contract := Get(balances, contract) - amount];
    if Get(paid, to) + amount >= U128_LIMIT then None else Some(paid[to := Get(paid, to) + amount])
  }

  function Cleaned(claimed: map<(Account, u64), u128>, addrs: seq<Account>, beforeDay: nat): map<(Account, u64), u128> {
    map k | k in claimed && !(k.0 in addrs && k.1 < beforeDay) :: claimed[k]
  }

  /** Why a claim is refused, in the order of the checks. */
  function ClaimFault(s: State, contract: Account, call: Call): Option<string>
    requires call.op.Claim?
  {
    var Claim(recipient, amount, nonce) := call.op;
    var total := Get(s.vault.claimed, (recipient, Day(call.timestamp))) + amount;
    if s.vault.Paused() then Some("paused: contract is paused")
    else if call.caller !in s.vault.platforms then Some("unauthorized")
    else if Get(s.vault.nonces, recipient) != nonce then Some("nonce mismatch")
    else if total >= U128_LIMIT then Some("daily cap: arithmetic overflow")
    else if total > s.vault.DailyCap() then Some("daily cap exceeded")
    else if Get(s.balances, contract) < amount then Some("insufficient vault balance")
    else None
  }

  function Claimed(s: State, contract: Account, call: Call): Outcome
    requires call.op.Claim? && ClaimFault(s, contract, call) == None
  {
    var Claim(recipient, amount, nonce) := call.op;
    var key := (recipient, Day(call.timestamp));
    if nonce + 1 >= U64_LIMIT then Panicked("attempt to add with overflow")
    else match Transferred(s.balances, contract, recipient, amount)
      case None => Panicked("attempt to add with overflow")
      case Some(balances) =>
        var v := s.vault;
        Done(State(v.(claimed := v.claimed[key := Get(v.claimed, key) + amount], nonces := v.nonces[recipient := nonce + 1]), balances))
  }

  /** An operation only the owner may call. */
  function OwnerStep(s: State, contract: Account, op: Op): Outcome
    requires s.vault.config.Some? && !op.Init? && !op.Fund? && !op.Claim?
  {
    var v, config := s.vault, s.vault.config.value;
    match op
    case SetDailyCap(newCap) => Done(s.(vault := v.(config := Some(config.(dailyCap := newCap)))))
    case AddPlatform(a) => Done(s.(vault := v.(platforms := v.platforms + {a})))
    case RemovePlatform(a) => Done(s.(vault := v.(platforms := v.platforms - {a})))
    case Pause => Done(s.(vault := v.(config := Some(config.(paused := true)))))
    case Unpause => Done(s.(vault := v.(config := Some(config.(paused := false)))))
    case Cleanup(beforeDay, addrs) => Done(s.(vault := v.(claimed := Cleaned(v.claimed, addrs, beforeDay))))
    case Withdraw(amount) =>
      if Get(s.balances, contract) < amount then Refused("insufficient vault balance")
      else (match Transferred(s.balances, contract, config.owner, amount)
        case None => Panicked("attempt to add with overflow")
        case Some(balances) => Done(s.(balances := balances)))
  }

  function Step(s: State, contract: Account, call: Call): Outcome {
    match call.op
    case Init(owner, dailyCap, minGames, platforms) =>
      if s.vault.config.Some? then Panicked("already initialized")
      else Done(s.(vault := s.vault.(config := Some(Config(owner, dailyCap, minGames, false)),
                                      platforms := s.vault.platforms + set a | a in platforms)))
    case Fund =>
      if call.value == 0 then Done(s)
      else if Get(s.balances, contract) + call.value >= U128_LIMIT then Panicked("attempt to add with overflow")
      else Done(s.(balances := s.balances[contract := Get(s.balances, contract) + call.value]))
    case Claim(_, _, _) =>
      (match ClaimFault(s, contract, call)
        case Some(reason) => Refused(reason)
        case None => Claimed(s, contract, call))
    case _ =>
      if s.vault.config == None then Panicked("owner not set")
      else if !s.vault.IsOwner(call.caller) then Panicked("caller is not the owner")
      else OwnerStep(s, contract, call.op)
  }

  /** The state once the call has been committed or reverted. */
  function After(s: State, contract: Account, call: Call): State {
    match Step(s, contract, call)
    case Done(t) => t
    case _ => s
  }

  function Run(s: State, contract: Account, calls: seq<Call>): State {
    if calls == [] then s else After(Run(s, contract, calls[..|calls| - 1]), contract, calls[|calls| - 1])
  }
}
