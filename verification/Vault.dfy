/** The vault's entry points over the byte store of its environment. */
module Vault {
  import opened Common
  import opened Bytes
  import opened VaultSpec
  import opened VaultStore

  /** What a caller sees: success, an error, or a panic. */
  datatype Reply = Accepted | Denied(reason: string) | Aborted(message: string)

  ghost predicate Shows(out: Outcome, before: State, after: State, reply: Reply) {
    match out
    case Done(state) => reply == Accepted && after == state
    case Refused(reason) => reply == Denied(reason) && after == before
    case Panicked(message) => reply == Aborted(message)
  }

  /** First byte of a value, zero when there is none. */
  function Flag(bytes: Option<seq<byte>>): byte {
    if bytes.Some? && bytes.value != [] then bytes.value[0] else 0
  }

  /** A little-endian number in the first bytes of a value, zero when the key is missing. */
  function Number(bytes: Option<seq<byte>>, width: nat): nat
    requires bytes.Some? ==> |bytes.value| >= width
  {
    if bytes.Some? then FromLe(bytes.value[..width]) else 0
  }

  class MockEnv {
    var storage: Store
    var caller: Account
    var value: u128
    var timestamp: u64
    var balances: map<Account, u128>
    const contractAddress: Account
    ghost var vault: Vault

    ghost predicate Valid()
      reads this
    {
      Holds(storage, vault)
    }

    ghost function Now(): State
      reads this
    {
      State(vault, balances)
    }

    ghost function Calling(op: Op): Call
      reads this
    {
      Call(caller, value, timestamp, op)
    }

    constructor ()
      ensures Valid() && vault == EMPTY && balances == map[contractAddress := 0]
    {
      var address: Account := seq(32, i => 0xCC);
      contractAddress := address;
      storage, balances := map[], map[address := 0];
      caller, value, timestamp := seq(32, i => 0), 0, 0;
      vault := EMPTY;
      new;
      EmptyHolds();
    }

    method Transfer(to: Account, amount: u128) returns (r: Reply)
      modifies this`balances
      ensures Get(old(balances), contractAddress) < amount ==> r.Denied? && balances == old(balances)
      ensures Get(old(balances), contractAddress) >= amount ==>
        match Transferred(old(balances), contractAddress, to, amount)
        case None => r == Aborted("attempt to add with overflow")
        case Some(after) => r == Accepted && balances == after
    {
      var held := Get(balances, contractAddress);
      if held < amount { return Denied("mock: insufficient balance"); }
      balances := balances[contractAddress := held - amount];
      var received := Get(balances, to) + amount;
      if received >= U128_LIMIT { return Aborted("attempt to add with overflow"); }
      balances := balances[to := received];
      return Accepted;
    }

    method CreditContract(amount: u128) returns (r: Reply)
      modifies this`balances
      ensures var sum := Get(old(balances), contractAddress) + amount;
        if sum >= U128_LIMIT then r == Aborted("attempt to add with overflow")
        else r == Accepted && balances == old(balances)[contractAddress := sum]
    {
      var sum := Get(balances, contractAddress) + amount;
      if sum >= U128_LIMIT { return Aborted("attempt to add with overflow"); }
      balances := balances[contractAddress := sum];
      return Accepted;
    }

    method StorageGet(key: string) returns (r: Option<seq<byte>>)
      ensures r == Lookup(storage, key)
    {
      return if key in storage then Some(storage[key]) else None;
    }

    /** Writes one cell; the ghost arguments say which, and what vault results. */
    method StorageSet(key: string, bytes: seq<byte>, ghost c: Cell, ghost after: Vault)
      requires Valid() && key == Key(c) && Differs(vault, after, c, Some(bytes))
      modifies this`storage, this`vault
      ensures Valid() && vault == after
    {
      SetHolds(storage, vault, c, bytes, after);
      storage := storage[key := bytes];
      vault := after;
    }

    method StorageRemove(key: string, ghost c: Cell, ghost after: Vault)
      requires Valid() && key == Key(c) && Differs(vault, after, c, None)
      modifies this`storage, this`vault
      ensures Valid() && vault == after
    {
      RemoveHolds(storage, vault, c, after);
      storage := storage - {key};
      vault := after;
    }
  }

  // ---------------------------------------------------------------- typed reads

  method ReadPaused(env: MockEnv) returns (paused: bool)
    requires env.Valid()
    ensures paused == env.vault.Paused()
  {
    var bytes := env.StorageGet(KEY_PAUSED);
    assert Lookup(env.storage, Key(PausedCell)) == Content(env.vault, PausedCell);
    return Flag(bytes) == 1;
  }

  method ReadPlatform(env: MockEnv, a: Account) returns (authorised: bool)
    requires env.Valid()
    ensures authorised == (a in env.vault.platforms)
  {
    var bytes := env.StorageGet(PlatformKey(a));
    assert Lookup(env.storage, Key(PlatformCell(a))) == Content(env.vault, PlatformCell(a));
    return Flag(bytes) == 1;
  }

  method ReadNonce(env: MockEnv, a: Account) returns (nonce: u64)
    requires env.Valid()
    ensures nonce == Get(env.vault.nonces, a)
  {
    var bytes := env.StorageGet(NonceKey(a));
    assert Lookup(env.storage, Key(NonceCell(a))) == Content(env.vault, NonceCell(a));
    if bytes.Some? {
      LittleEndian64(env.vault.nonces[a]);
      assert bytes.value[..8] == bytes.value;
    }
    return Number(bytes, 8);
  }

  method ReadClaimed(env: MockEnv, a: Account, day: u64) returns (claimed: u128)
    requires env.Valid()
    ensures claimed == Get(env.vault.claimed, (a, day))
  {
    var bytes := env.StorageGet(ClaimedKey(a, day));
    assert Lookup(env.storage, Key(ClaimedCell(a, day))) == Content(env.vault, ClaimedCell(a, day));
    if bytes.Some? {
      LittleEndian128(env.vault.claimed[(a, day)]);
      assert bytes.value[..16] == bytes.value;
    }
    return Number(bytes, 16);
  }

  method ReadDailyCap(env: MockEnv) returns (cap: u128)
    requires env.Valid()
    ensures cap == env.vault.DailyCap()
  {
    var bytes := env.StorageGet(KEY_DAILY_CAP);
    assert Lookup(env.storage, Key(DailyCapCell)) == Content(env.vault, DailyCapCell);
    if bytes.Some? {
      LittleEndian128(env.vault.config.value.dailyCap);
      assert bytes.value[..16] == bytes.value;
    }
    return Number(bytes, 16);
  }

  /** The stored owner; reading it before `init` panics. */
  method ReadOwner(env: MockEnv) returns (owner: Option<Account>)
    requires env.Valid()
    ensures owner == if env.vault.config.Some? then Some(env.vault.config.value.owner) else None
  {
    var bytes := env.StorageGet(KEY_OWNER);
    assert Lookup(env.storage, Key(OwnerCell)) == Content(env.vault, OwnerCell);
    return bytes;
  }

  /** The panic that keeps anyone but the owner out, if it applies. */
  method RequireOwner(env: MockEnv) returns (r: Reply)
    requires env.Valid()
    ensures r == if env.vault.config == None then Aborted("owner not set")
                 else if !env.vault.IsOwner(env.caller) then Aborted("caller is not the owner") else Accepted
  {
    var owner := ReadOwner(env);
    if owner == None { return Aborted("owner not set"); }
    if env.caller != owner.value { return Aborted("caller is not the owner"); }
    return Accepted;
  }

  // ---------------------------------------------------------------- entry points

  method ApplyInit(env: MockEnv, owner: Account, dailyCap: u128, minGames: u64, platforms: seq<Account>) returns (r: Reply)
    requires env.Valid()
    modifies env`storage, env`vault
    ensures env.Valid()
    ensures Shows(Step(old(env.Now()), env.contractAddress, env.Calling(Init(owner, dailyCap, minGames, platforms))),
                  old(env.Now()), env.Now(), r)
  {
    var version := env.StorageGet(KEY_VERSION);
    assert Lookup(env.storage, Key(VersionCell)) == Content(env.vault, VersionCell);
    if version.Some? { return Aborted("already initialized"); }
    WriteConfig(env, owner, dailyCap, minGames);
    AuthoriseAll(env, platforms);
    return Accepted;
  }

  method AuthoriseAll(env: MockEnv, platforms: seq<Account>)
    requires env.Valid()
    modifies env`storage, env`vault
    ensures env.Valid() && env.vault == old(env.vault).(platforms := old(env.vault).platforms + set a | a in platforms)
  {
    hide Holds;
    ghost var v := env.vault;
    for i := 0 to |platforms|
      invariant env.Valid() && env.vault == v.(platforms := v.platforms + set a | a in platforms[..i])
    {
      assert platforms[..i + 1] == platforms[..i] + [platforms[i]];
      env.StorageSet(PlatformKey(platforms[i]), [1], PlatformCell(platforms[i]),
                     env.vault.(platforms := env.vault.platforms + {platforms[i]}));
    }
    assert platforms[..|platforms|] == platforms;
  }

  /** The five constant cells, written one by one; no vault is held until the last. */
  method WriteConfig(env: MockEnv, owner: Account, dailyCap: u128, minGames: u64)
    requires env.Valid() && env.vault.config == None
    modifies env`storage, env`vault
    ensures env.Valid() && env.vault == old(env.vault).(config := Some(Config(owner, dailyCap, minGames, false)))
  {
    ghost var before := env.storage;
    env.storage := env.storage[KEY_VERSION := Le(1, 4)];
    env.storage := env.storage[KEY_OWNER := owner];
    env.storage := env.storage[KEY_DAILY_CAP := Le(dailyCap, 16)];
    env.storage := env.storage[KEY_MIN_GAMES := Le(minGames, 8)];
    env.storage := env.storage[KEY_PAUSED := [0]];
    env.vault := env.vault.(config := Some(Config(owner, dailyCap, minGames, false)));
    ConfigHolds(before, old(env.vault), env.storage, env.vault);
  }

  lemma ConfigHolds(s: Store, v: Vault, t: Store, w: Vault)
    requires Holds(s, v) && w.config.Some? && w == v.(config := w.config) && !w.config.value.paused
    requires t == s[KEY_VERSION := Le(1, 4)][KEY_OWNER := w.config.value.owner]
                   [KEY_DAILY_CAP := Le(w.config.value.dailyCap, 16)][KEY_MIN_GAMES := Le(w.config.value.minGames, 8)]
                   [KEY_PAUSED := [0]]
    ensures Holds(t, w)
  {
    forall c: Cell
      ensures Lookup(t, Key(c)) == Content(w, c)
    {
      match c
      case VersionCell =>
      case OwnerCell =>
      case DailyCapCell =>
      case MinGamesCell =>
      case PausedCell =>
      case PlatformCell(_) =>
        assert Key(c)[..2] == "pl" && KEY_PAUSED[..2] == "pa";
        assert Lookup(s, Key(c)) == Content(v, c);
      case ClaimedCell(_, _) => assert Key(c)[0] == 'c' && Lookup(s, Key(c)) == Content(v, c);
      case NonceCell(_) => assert Key(c)[0] == 'n' && Lookup(s, Key(c)) == Content(v, c);
    }
    forall key | key in t
      ensures exists c :: key == Key(c)
    {
      if key !in s {
        assert key == Key(VersionCell) || key == Key(OwnerCell) || key == Key(DailyCapCell)
            || key == Key(MinGamesCell) || key == Key(PausedCell);
      }
    }
  }

  method ApplyFund(env: MockEnv) returns (r: Reply)
    requires env.Valid()
    modifies env`balances
    ensures env.Valid() && Shows(Step(old(env.Now()), env.contractAddress, env.Calling(Fund)), old(env.Now()), env.Now(), r)
  {
    if env.value == 0 { return Accepted; }
    r := env.CreditContract(env.value);
  }

  /** The checks of a claim, in order, on the byte store. */
  method CheckClaim(env: MockEnv, recipient: Account, amount: u128, nonce: u64) returns (fault: Option<string>, newTotal: nat)
    requires env.Valid()
    ensures fault == ClaimFault(env.Now(), env.contractAddress, env.Calling(Claim(recipient, amount, nonce)))
    ensures fault == None ==> newTotal == Get(env.vault.claimed, (recipient, Day(env.timestamp))) + amount
  {
    newTotal := 0;
    var paused := ReadPaused(env);
    if paused { return Some("paused: contract is paused"), newTotal; }
    var authorised := ReadPlatform(env, env.caller);
    if !authorised { return Some("unauthorized"), newTotal; }
    var stored := ReadNonce(env, recipient);
    if stored != nonce { return Some("nonce mismatch"), newTotal; }
    var claimed := ReadClaimed(env, recipient, Day(env.timestamp));
    var cap := ReadDailyCap(env);
    newTotal := claimed + amount;
    if newTotal >= U128_LIMIT { return Some("daily cap: arithmetic overflow"), newTotal; }
    if newTotal > cap { return Some("daily cap exceeded"), newTotal; }
    if Get(env.balances, env.contractAddress) < amount { return Some("insufficient vault balance"), newTotal; }
    return None, newTotal;
  }

  method ApplyClaimReward(env: MockEnv, recipient: Account, amount: u128, nonce: u64) returns (r: Reply)
    requires env.Valid()
    modifies env`storage, env`vault, env`balances
    ensures env.Valid()
    ensures Shows(Step(old(env.Now()), env.contractAddress, env.Calling(Claim(recipient, amount, nonce))),
                  old(env.Now()), env.Now(), r)
  {
    hide Holds;
    var fault, newTotal := CheckClaim(env, recipient, amount, nonce);
    if fault.Some? { return Denied(fault.value); }
    r := RecordClaim(env, recipient, Day(env.timestamp), newTotal, nonce);
    if r == Accepted {
      r := env.Transfer(recipient, amount);
    }
  }

  /** The effects of a claim: the day's new total, then the next nonce. */
  method RecordClaim(env: MockEnv, recipient: Account, day: u64, newTotal: u128, nonce: u64) returns (r: Reply)
    requires env.Valid()
    modifies env`storage, env`vault
    ensures env.Valid()
    ensures if nonce + 1 >= U64_LIMIT then r == Aborted("attempt to add with overflow")
      else r == Accepted && env.vault == old(env.vault).(claimed := old(env.vault).claimed[(recipient, day) := newTotal],
                                                         nonces := old(env.vault).nonces[recipient := nonce + 1])
  {
    hide Holds;
    env.StorageSet(ClaimedKey(recipient, day), Le(newTotal, 16), ClaimedCell(recipient, day),
                   env.vault.(claimed := env.vault.claimed[(recipient, day) := newTotal]));
    if nonce + 1 >= U64_LIMIT { return Aborted("attempt to add with overflow"); }
    env.StorageSet(NonceKey(recipient), Le(nonce + 1, 8), NonceCell(recipient),
                   env.vault.(nonces := env.vault.nonces[recipient := nonce + 1]));
    return Accepted;
  }

  method ApplySetDailyCap(env: MockEnv, newCap: u128) returns (r: Reply)
    requires env.Valid()
    modifies env`storage, env`vault
    ensures env.Valid()
    ensures Shows(Step(old(env.Now()), env.contractAddress, env.Calling(SetDailyCap(newCap))), old(env.Now()), env.Now(), r)
  {
    r := RequireOwner(env);
    if r == Accepted {
      env.StorageSet(KEY_DAILY_CAP, Le(newCap, 16), DailyCapCell,
                     env.vault.(config := Some(env.vault.config.value.(dailyCap := newCap))));
    }
  }

  method ApplyAddPlatform(env: MockEnv, a: Account) returns (r: Reply)
    requires env.Valid()
    modifies env`storage, env`vault
    ensures env.Valid()
    ensures Shows(Step(old(env.Now()), env.contractAddress, env.Calling(AddPlatform(a))), old(env.Now()), env.Now(), r)
  {
    r := RequireOwner(env);
    if r == Accepted {
      env.StorageSet(PlatformKey(a), [1], PlatformCell(a), env.vault.(platforms := env.vault.platforms + {a}));
    }
  }

  method ApplyRemovePlatform(env: MockEnv, a: Account) returns (r: Reply)
    requires env.Valid()
    modifies env`storage, env`vault
    ensures env.Valid()
    ensures Shows(Step(old(env.Now()), env.contractAddress, env.Calling(RemovePlatform(a))), old(env.Now()), env.Now(), r)
  {
    r := RequireOwner(env);
    if r == Accepted {
      env.StorageRemove(PlatformKey(a), PlatformCell(a), env.vault.(platforms := env.vault.platforms - {a}));
    }
  }

  method ApplyPause(env: MockEnv) returns (r: Reply)
    requires env.Valid()
    modifies env`storage, env`vault
    ensures env.Valid()
    ensures Shows(Step(old(env.Now()), env.contractAddress, env.Calling(Pause)), old(env.Now()), env.Now(), r)
  {
    r := RequireOwner(env);
    if r == Accepted {
      env.StorageSet(KEY_PAUSED, [1], PausedCell, env.vault.(config := Some(env.vault.config.value.(paused := true))));
    }
  }

  method ApplyUnpause(env: MockEnv) returns (r: Reply)
    requires env.Valid()
    modifies env`storage, env`vault
    ensures env.Valid()
    ensures Shows(Step(old(env.Now()), env.contractAddress, env.Calling(Unpause)), old(env.Now()), env.Now(), r)
  {
    r := RequireOwner(env);
    if r == Accepted {
      env.StorageSet(KEY_PAUSED, [0], PausedCell, env.vault.(config := Some(env.vault.config.value.(paused := false))));
    }
  }

  method ApplyWithdraw(env: MockEnv, amount: u128) returns (r: Reply)
    requires env.Valid()
    modifies env`balances
    ensures env.Valid()
    ensures Shows(Step(old(env.Now()), env.contractAddress, env.Calling(Withdraw(amount))), old(env.Now()), env.Now(), r)
  {
    r := RequireOwner(env);
    if r != Accepted { return r; }
    if Get(env.balances, env.contractAddress) < amount { return Denied("insufficient vault balance"); }
    var owner := ReadOwner(env);
    r := env.Transfer(owner.value, amount);
  }

  method ApplyGetDailyClaimed(env: MockEnv, a: Account) returns (claimed: u128)
    requires env.Valid()
    ensures claimed == Get(env.vault.claimed, (a, Day(env.timestamp)))
  {
    claimed := ReadClaimed(env, a, Day(env.timestamp));
  }

  /** Removes one address's records of the days before `beforeDay`. */
  method CleanAddress(env: MockEnv, a: Account, beforeDay: u32)
    requires env.Valid()
    modifies env`storage, env`vault
    ensures env.Valid() && env.vault == old(env.vault).(claimed := Cleaned(old(env.vault).claimed, [a], beforeDay))
  {
    hide Holds;
    ghost var v := env.vault;
    for day := 0 to beforeDay
      invariant env.Valid() && env.vault == v.(claimed := Cleaned(v.claimed, [a], day))
    {
      var bytes := env.StorageGet(ClaimedKey(a, day));
      RecordExists(env.storage, env.vault, a, day);
      ghost var after := env.vault.(claimed := env.vault.claimed - {(a, day)});
      assert after.claimed == Cleaned(v.claimed, [a], day + 1);
      if bytes.Some? {
        env.StorageRemove(ClaimedKey(a, day), ClaimedCell(a, day), after);
      } else {
        assert after.claimed == env.vault.claimed;
      }
    }
  }

  lemma RecordExists(store: Store, v: Vault, a: Account, day: u64)
    requires Holds(store, v)
    ensures Lookup(store, ClaimedKey(a, day)).Some? <==> (a, day) in v.claimed
  {
    assert Lookup(store, Key(ClaimedCell(a, day))) == Content(v, ClaimedCell(a, day));
  }

  method ApplyCleanupClaims(env: MockEnv, beforeDay: u32, addrs: seq<Account>) returns (r: Reply)
    requires env.Valid()
    modifies env`storage, env`vault
    ensures env.Valid()
    ensures Shows(Step(old(env.Now()), env.contractAddress, env.Calling(Cleanup(beforeDay, addrs))), old(env.Now()), env.Now(), r)
  {
    hide Holds;
    r := RequireOwner(env);
    if r != Accepted { return r; }
    ghost var v := env.vault;
    assert Cleaned(v.claimed, [], beforeDay) == v.claimed;
    for i := 0 to |addrs|
      invariant env.Valid() && env.vault == v.(claimed := Cleaned(v.claimed, addrs[..i], beforeDay))
    {
      assert addrs[..i + 1] == addrs[..i] + [addrs[i]];
      CleanAddress(env, addrs[i], beforeDay);
      assert env.vault.claimed == Cleaned(v.claimed, addrs[..i + 1], beforeDay);
    }
    assert addrs[..|addrs|] == addrs;
  }

  // ---------------------------------------------------------------- transactions

  method Dispatch(env: MockEnv, op: Op) returns (r: Reply)
    requires env.Valid()
    modifies env`storage, env`vault, env`balances
    ensures env.Valid() && Shows(Step(old(env.Now()), env.contractAddress, env.Calling(op)), old(env.Now()), env.Now(), r)
  {
    hide Holds, Step;
    match op
    case Init(owner, dailyCap, minGames, platforms) => r := ApplyInit(env, owner, dailyCap, minGames, platforms);
    case Fund => r := ApplyFund(env);
    case Claim(recipient, amount, nonce) => r := ApplyClaimReward(env, recipient, amount, nonce);
    case SetDailyCap(newCap) => r := ApplySetDailyCap(env, newCap);
    case AddPlatform(a) => r := ApplyAddPlatform(env, a);
    case RemovePlatform(a) => r := ApplyRemovePlatform(env, a);
    case Pause => r := ApplyPause(env);
    case Unpause => r := ApplyUnpause(env);
    case Withdraw(amount) => r := ApplyWithdraw(env, amount);
    case Cleanup(beforeDay, addrs) => r := ApplyCleanupClaims(env, beforeDay, addrs);
  }

  /** One transaction: the context is set, the entry point runs, and a panic reverts the frame. */
  method Invoke(env: MockEnv, call: Call) returns (r: Reply)
    requires env.Valid()
    modifies env
    ensures env.Valid() && env.Now() == After(old(env.Now()), env.contractAddress, call)
    ensures r == Accepted <==> Step(old(env.Now()), env.contractAddress, call).Done?
  {
    hide Holds, Step;
    env.caller, env.value, env.timestamp := call.caller, call.value, call.timestamp;
    var storage, balances := env.storage, env.balances;
    ghost var vault := env.vault;
    r := Dispatch(env, call.op);
    if r.Aborted? {
      env.storage, env.balances, env.vault := storage, balances, vault;
    }
  }

  /** Every run over the byte store is a run over the typed tables. */
  method InvokeAll(env: MockEnv, calls: seq<Call>)
    requires env.Valid()
    modifies env
    ensures env.Valid() && env.Now() == Run(old(env.Now()), env.contractAddress, calls)
  {
    hide Holds, After;
    for i := 0 to |calls|
      invariant env.Valid() && env.Now() == Run(old(env.Now()), env.contractAddress, calls[..i])
    {
      assert calls[..i + 1][..i] == calls[..i];
      var _ := Invoke(env, calls[i]);
    }
    assert calls[..|calls|] == calls;
  }
}
