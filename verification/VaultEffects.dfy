/** Who moves the vault's money and tables, and what each call does to every account. */
module VaultEffects {
  import opened Common
  import opened Bytes
  import opened VaultSpec
  import opened VaultSafety

  // ---------------------------------------------------------------- which calls go through

  predicate Fits(balance: nat, amount: nat) {
    balance + amount < 0x1_0000_0000_0000_0000_0000_0000_0000_0000
  }

  predicate ByOwner(s: State, call: Call) {
    s.vault.config.Some? && call.caller == s.vault.config.value.owner
  }

  predicate GoesThrough(s: State, contract: Account, call: Call) {
    match call.op
    case Init(_, _, _, _) => s.vault.config == None
    case Fund => Fits(Get(s.balances, contract), call.value)
    case Claim(a, amount, nonce) =>
      && MeetsChecks(s, contract, call) && nonce + 1 < 0x1_0000_0000_0000_0000
      && (a == contract || Fits(Get(s.balances, a), amount))
    case Withdraw(amount) =>
      && ByOwner(s, call) && amount <= Get(s.balances, contract)
      && (call.caller == contract || Fits(Get(s.balances, call.caller), amount))
    case _ => ByOwner(s, call)
  }

  /** Exactly which calls go through. */
  lemma DoneIff(s: State, contract: Account, call: Call)
    ensures Step(s, contract, call).Done? <==> GoesThrough(s, contract, call)
  {
    hide Cleaned;
    if call.op.Claim? { PaysIff(s, contract, call, call.op.recipient); }
  }

  // ---------------------------------------------------------------- what they do

  /** What a call that goes through adds to the balance of `b`: to the recipient of a claim, the owner who withdraws, and the
    * vault that is funded. */
  function Gets(contract: Account, call: Call, b: Account): nat {
    match call.op
    case Fund => if b == contract then call.value else 0
    case Claim(recipient, amount, _) => if b == recipient then amount else 0
    case Withdraw(amount) => if b == call.caller then amount else 0
    case _ => 0
  }

  /** What it takes: claims and withdrawals come out of the vault. */
  function Gives(contract: Account, call: Call, b: Account): nat {
    if b != contract then 0
    else match call.op
      case Claim(_, amount, _) => amount
      case Withdraw(amount) => amount
      case _ => 0
  }

  /** Every balance after a call. */
  lemma BalancesMeaning(s: State, contract: Account, call: Call, b: Account)
    requires Step(s, contract, call).Done?
    ensures Get(Step(s, contract, call).state.balances, b) + Gives(contract, call, b) == Get(s.balances, b) + Gets(contract, call, b)
  {
    hide Cleaned;
  }

  /** The config after a call: made once, then changed in cap and switch alone. */
  function ConfigAfter(s: State, call: Call): Option<Config> {
    if call.op.Init? then Some(Config(call.op.owner, call.op.dailyCap, call.op.minGames, false))
    else if s.vault.config == None then None
    else
      var c := s.vault.config.value;
      match call.op
      case SetDailyCap(newCap) => Some(Config(c.owner, newCap, c.minGames, c.paused))
      case Pause => Some(Config(c.owner, c.dailyCap, c.minGames, true))
      case Unpause => Some(Config(c.owner, c.dailyCap, c.minGames, false))
      case _ => Some(c)
  }

  /** Whether `b` is a platform afterwards. */
  predicate PlatformAfter(s: State, call: Call, b: Account) {
    match call.op
    case Init(_, _, _, platforms) => b in platforms || b in s.vault.platforms
    case AddPlatform(p) => b == p || b in s.vault.platforms
    case RemovePlatform(p) => b != p && b in s.vault.platforms
    case _ => b in s.vault.platforms
  }

  function RecordAfter(s: State, call: Call, b: Account, day: u64): nat {
    match call.op
    case Claim(a, amount, _) =>
      Get(s.vault.claimed, (b, day)) + if b == a && day == call.timestamp / 86_400 then amount else 0
    case Cleanup(beforeDay, addrs) => if b in addrs && day < beforeDay then 0 else Get(s.vault.claimed, (b, day))
    case _ => Get(s.vault.claimed, (b, day))
  }

  /** Every cell of the tables after a call. */
  lemma TablesMeaning(s: State, contract: Account, call: Call, b: Account, day: u64)
    requires Step(s, contract, call).Done?
    ensures var v := Step(s, contract, call).state.vault;
      && v.config == ConfigAfter(s, call)
      && (b in v.platforms <==> PlatformAfter(s, call, b))
      && Get(v.claimed, (b, day)) == RecordAfter(s, call, b, day)
      && Get(v.nonces, b) == Get(s.vault.nonces, b) + (if call.op.Claim? && call.op.recipient == b then 1 else 0)
  {
    if call.op.Claim? { PaysIff(s, contract, call, call.op.recipient); }
  }

  // ---------------------------------------------------------------- runs

  function GetsAlong(s: State, contract: Account, calls: seq<Call>, b: Account): nat {
    if calls == [] then 0
    else
      var front, call := calls[..|calls| - 1], calls[|calls| - 1];
      GetsAlong(s, contract, front, b)
      + if Step(Run(s, contract, front), contract, call).Done? then Gets(contract, call, b) else 0
  }

  function GivesAlong(s: State, contract: Account, calls: seq<Call>, b: Account): nat {
    if calls == [] then 0
    else
      var front, call := calls[..|calls| - 1], calls[|calls| - 1];
      GivesAlong(s, contract, front, b)
      + if Step(Run(s, contract, front), contract, call).Done? then Gives(contract, call, b) else 0
  }

  /** Over every run each account holds what it was paid, and the vault what it was funded less what it paid. */
  lemma {:induction false} EveryAccount(s: State, contract: Account, calls: seq<Call>, b: Account)
    ensures Get(Run(s, contract, calls).balances, b) + GivesAlong(s, contract, calls, b)
         == Get(s.balances, b) + GetsAlong(s, contract, calls, b)
  {
    hide Step, Gets, Gives;
    if calls != [] {
      var front, call := calls[..|calls| - 1], calls[|calls| - 1];
      EveryAccount(s, contract, front, b);
      if Step(Run(s, contract, front), contract, call).Done? {
        BalancesMeaning(Run(s, contract, front), contract, call, b);
      }
    }
  }

  /** Whoever the callers are: while the owner is silent, and the vault is paused or no platform calls, nothing is paid. */
  lemma {:induction false} OnlyPlatformsPay(s: State, contract: Account, calls: seq<Call>, a: Account, day: u64)
    requires s.vault.config.Some?
    requires forall i :: 0 <= i < |calls| ==> calls[i].caller != s.vault.config.value.owner
    requires s.vault.config.value.paused || forall i :: 0 <= i < |calls| ==> calls[i].caller !in s.vault.platforms
    ensures PaidOut(s, contract, calls) == 0 && PaidOn(s, contract, calls, a, day) == 0 && PaidClaims(s, contract, calls, a) == 0
  {
    if calls != [] {
      var front, call := calls[..|calls| - 1], calls[|calls| - 1];
      assert forall i :: 0 <= i < |front| ==> front[i] == calls[i];
      OnlyPlatformsPay(s, contract, front, a, day);
      OnlyTheOwnerDecides(s, contract, front, a, day);
      var t := Run(s, contract, front);
      if call.op.Claim? {
        PaysIff(t, contract, call, call.op.recipient);
        assert !Step(t, contract, call).Done?;
      }
      hide Run, Step;
    }
  }
}
