/** The contract object: the state fields and the operations that update them in place. */
module ArenaContract {
  import opened Common
  import opened ArenaPool

  /** What a caller sees of an outcome. */
  ghost predicate Shows(out: Outcome, before: Pool, after: Pool, reply: Reply) {
    match out
    case Done(pool, transfers) => reply == Accepted(transfers) && after == pool
    case Rejected(reason) => reply == Refused(reason) && after == before
    case Fault => reply == Faulted
  }

  class ContractState {
    var version: nat
    var paused: bool
    var owner: Address
    var platform: Address
    var feeBps: nat
    var burnBps: nat
    var balance: map<Address, nat>
    var locked: map<Address, nat>
    var games: map<GameHash, Game>
    var totalFeesCollected: nat

    function Value(): Pool
      reads this
    {
      Pool(version, paused, owner, platform, feeBps, burnBps, balance, locked, games, totalFeesCollected)
    }

    constructor ()
      ensures Value() == EMPTY
    {
      version, paused, owner, platform, feeBps, burnBps := 0, false, 0, 0, 0, 0;
      balance, locked, games, totalFeesCollected := map[], map[], map[], 0;
    }

    method ApplyInit(initOwner: Address, initPlatform: Address, fee: nat, burn: nat) returns (r: Reply)
      modifies this
      ensures Shows(Step(old(Value()), Init(initOwner, initPlatform, fee, burn)), old(Value()), Value(), r)
    {
      if fee + burn > 10_000 {
        return Refused("fee_bps + burn_bps must be <= 10000");
      }
      version, paused := 1, false;
      owner, platform := initOwner, initPlatform;
      feeBps, burnBps := fee, burn;
      totalFeesCollected := 0;
      return Accepted([]);
    }

    method ApplyDeposit(caller: Address, value: nat) returns (r: Reply)
      modifies this
      ensures Shows(Step(old(Value()), Deposit(caller, value)), old(Value()), Value(), r)
    {
      if paused { return Refused("contract is paused"); }
      if value == 0 { return Refused("deposit value must be > 0"); }
      if Get(balance, caller) + value >= U128_LIMIT { return Faulted; }
      balance := balance[caller := Get(balance, caller) + value];
      return Accepted([]);
    }

    method ApplyWithdraw(caller: Address, amount: nat) returns (r: Reply)
      modifies this
      ensures Shows(Step(old(Value()), Withdraw(caller, amount)), old(Value()), Value(), r)
    {
      if amount == 0 { return Refused("withdraw amount must be > 0"); }
      if Available(Value(), caller) < amount { return Refused("insufficient available balance"); }
      balance := balance[caller := Get(balance, caller) - amount];
      return Accepted([Transfer(caller, amount)]);
    }

    method ApplyLockEntries(caller: Address, game: GameHash, players: seq<Address>, entryFee: nat, lockTime: nat)
      returns (r: Reply)
      modifies this
      ensures Shows(Step(old(Value()), LockEntries(caller, game, players, entryFee, lockTime)), old(Value()), Value(), r)
    {
      if paused { return Refused("contract is paused"); }
      if caller != platform { return Refused("caller is not the platform"); }
      if players == [] { return Refused("players list must not be empty"); }
      if entryFee == 0 { return Refused("entry_fee must be > 0"); }
      if game in games { return Refused("game already exists (idempotency violation)"); }
      for i := 0 to |players|
        invariant Value() == old(Value())
        invariant forall k :: 0 <= k < i ==> Available(Value(), players[k]) >= entryFee
      {
        if Available(Value(), players[i]) < entryFee {
          return Refused("player has insufficient available balance");
        }
      }
      ghost var start := locked;
      for i := 0 to |players|
        invariant Value() == old(Value()).(locked := locked)
        invariant Raise(start, players, entryFee) == Raise(locked, players[i..], entryFee)
      {
        if Get(locked, players[i]) + entryFee >= U128_LIMIT { return Faulted; }
        locked := locked[players[i] := Get(locked, players[i]) + entryFee];
      }
      games := games[game := Game(Active, entryFee, lockTime, players)];
      return Accepted([]);
    }

    method ApplySettleGame(caller: Address, game: GameHash, winners: seq<Address>, amounts: seq<nat>)
      returns (r: Reply)
      modifies this
      ensures Shows(Step(old(Value()), SettleGame(caller, game, winners, amounts)), old(Value()), Value(), r)
    {
      if caller != platform { return Refused("caller is not the platform"); }
      if |winners| != |amounts| { return Refused("winners and amounts length mismatch"); }
      if game !in games { return Refused("game does not exist"); }
      var g := games[game];
      if g.status != Active { return Refused("game is not active"); }
      for i := 0 to |winners|
        invariant forall k :: 0 <= k < i ==> winners[k] in g.players
      {
        if winners[i] !in g.players { return Refused("winner is not a participant in this game"); }
      }
      var pot := Pot(g);
      if !SharesFit(pot, feeBps, burnBps) { return Faulted; }
      var platformFee, burnAmount := Share(pot, feeBps), Share(pot, burnBps);
      var winnerTotal := SumAll(amounts);
      if winnerTotal + platformFee + burnAmount >= U128_LIMIT { return Faulted; }
      if winnerTotal + platformFee + burnAmount != pot {
        return Refused("amounts + fee + burn must equal total_pool (conservation violation)");
      }
      r := SettleChecked(game, winners, amounts, platformFee, burnAmount);
    }

    /** The effects of a settlement whose checks passed. */
    method SettleChecked(game: GameHash, winners: seq<Address>, amounts: seq<nat>, platformFee: nat, burnAmount: nat)
      returns (r: Reply)
      requires game in games && |winners| == |amounts|
      requires platformFee == Share(Pot(games[game]), feeBps) && burnAmount == Share(Pot(games[game]), burnBps)
      modifies this
      ensures Shows(SettleEffects(old(Value()), game, winners, amounts), old(Value()), Value(), r)
    {
      var g := games[game];
      var charged := ChargePlayers(g);
      if !charged { return Faulted; }
      var paid := PayWinners(winners, amounts);
      if !paid || totalFeesCollected + platformFee >= U128_LIMIT { return Faulted; }
      totalFeesCollected := totalFeesCollected + platformFee;
      games := games[game := g.(status := Settled)];
      return Accepted(if burnAmount > 0 then [Transfer(BURN_ADDRESS, burnAmount)] else []);
    }

    /** Takes the entry fee of every seat from both the balance and the locked amount. */
    method ChargePlayers(g: Game) returns (ok: bool)
      modifies this`balance, this`locked
      ensures ok <==> Lower(old(balance), g.players, g.entryFee).Some? && Lower(old(locked), g.players, g.entryFee).Some?
      ensures ok ==> Lower(old(balance), g.players, g.entryFee) == Some(balance)
      ensures ok ==> Lower(old(locked), g.players, g.entryFee) == Some(locked)
    {
      for i := 0 to |g.players|
        invariant Lower(old(balance), g.players, g.entryFee) == Lower(balance, g.players[i..], g.entryFee)
        invariant Lower(old(locked), g.players, g.entryFee) == Lower(locked, g.players[i..], g.entryFee)
      {
        var p := g.players[i];
        if Get(balance, p) < g.entryFee || Get(locked, p) < g.entryFee { return false; }
        balance := balance[p := Get(balance, p) - g.entryFee];
        locked := locked[p := Get(locked, p) - g.entryFee];
      }
      return true;
    }

    /** Credits each winner with the amount at the same position. */
    method PayWinners(winners: seq<Address>, amounts: seq<nat>) returns (ok: bool)
      requires |winners| == |amounts|
      modifies this`balance
      ensures ok <==> Credit(old(balance), winners, amounts).Some?
      ensures ok ==> Credit(old(balance), winners, amounts) == Some(balance)
    {
      for i := 0 to |winners|
        invariant Credit(old(balance), winners, amounts) == Credit(balance, winners[i..], amounts[i..])
      {
        if Get(balance, winners[i]) + amounts[i] >= U128_LIMIT { return false; }
        balance := balance[winners[i] := Get(balance, winners[i]) + amounts[i]];
      }
      return true;
    }

    /** Gives every seat of an active game its entry fee back and closes the game. */
    method Release(game: GameHash) returns (r: Reply)
      requires game in games
      modifies this
      ensures Shows(ReleaseSpec(old(Value()), game), old(Value()), Value(), r)
    {
      var g := games[game];
      ghost var start := locked;
      for i := 0 to |g.players|
        invariant Value() == old(Value()).(locked := locked)
        invariant Lower(start, g.players, g.entryFee) == Lower(locked, g.players[i..], g.entryFee)
      {
        if Get(locked, g.players[i]) < g.entryFee { return Faulted; }
        locked := locked[g.players[i] := Get(locked, g.players[i]) - g.entryFee];
      }
      games := games[game := g.(status := Refunded)];
      return Accepted([]);
    }

    method ApplyRefundGame(caller: Address, game: GameHash) returns (r: Reply)
      modifies this
      ensures Shows(Step(old(Value()), RefundGame(caller, game)), old(Value()), Value(), r)
    {
      if caller != platform { return Refused("caller is not the platform"); }
      if game !in games { return Refused("game does not exist"); }
      if games[game].status != Active { return Refused("game is not active"); }
      r := Release(game);
    }

    method ApplyEmergencyRefund(caller: Address, game: GameHash, now: nat) returns (r: Reply)
      modifies this
      ensures Shows(Step(old(Value()), EmergencyRefund(caller, game, now)), old(Value()), Value(), r)
    {
      if game !in games { return Refused("game does not exist"); }
      var g := games[game];
      if g.status != Active { return Refused("game is not active"); }
      if caller !in g.players { return Refused("caller is not a participant in this game"); }
      if g.lockTime + EMERGENCY_TIMEOUT_SECS >= U64_LIMIT { return Faulted; }
      if now < g.lockTime + EMERGENCY_TIMEOUT_SECS { return Refused("emergency timeout has not elapsed"); }
      r := Release(game);
    }

    method ApplyClaimFees(caller: Address) returns (r: Reply)
      modifies this
      ensures Shows(Step(old(Value()), ClaimFees(caller)), old(Value()), Value(), r)
    {
      if caller != owner { return Refused("caller is not the owner"); }
      if totalFeesCollected == 0 { return Refused("no fees to claim"); }
      var amount := totalFeesCollected;
      totalFeesCollected := 0;
      return Accepted([Transfer(owner, amount)]);
    }

    method ApplyPause(caller: Address) returns (r: Reply)
      modifies this
      ensures Shows(Step(old(Value()), Pause(caller)), old(Value()), Value(), r)
    {
      if caller != owner { return Refused("caller is not the owner"); }
      if paused { return Refused("contract is already paused"); }
      paused := true;
      return Accepted([]);
    }

    method ApplyUnpause(caller: Address) returns (r: Reply)
      modifies this
      ensures Shows(Step(old(Value()), Unpause(caller)), old(Value()), Value(), r)
    {
      if caller != owner { return Refused("caller is not the owner"); }
      if !paused { return Refused("contract is not paused"); }
      paused := false;
      return Accepted([]);
    }

    method ApplyCleanupGames(caller: Address, hashes: seq<GameHash>) returns (r: Reply)
      modifies this
      ensures Shows(Step(old(Value()), CleanupGames(caller, hashes)), old(Value()), Value(), r)
    {
      if caller != owner { return Refused("caller is not the owner"); }
      for i := 0 to |hashes|
        invariant CleanupObstacle(games, hashes) == CleanupObstacle(games, hashes[i..])
      {
        if hashes[i] !in games { return Refused("game does not exist"); }
        if games[hashes[i]].status == Active { return Refused("cannot delete an active game"); }
      }
      ghost var start := games;
      for i := 0 to |hashes|
        invariant Value() == old(Value()).(games := start - (set h | h in hashes[..i]))
      {
        games := games - {hashes[i]};
        assert hashes[..i + 1] == hashes[..i] + [hashes[i]];
      }
      assert hashes[..|hashes|] == hashes;
      return Accepted([]);
    }
  }

  /** `amounts.iter().sum()`. */
  method SumAll(amounts: seq<nat>) returns (total: nat)
    ensures total == Sum(amounts)
  {
    total := 0;
    for i := 0 to |amounts|
      invariant Sum(amounts) == total + Sum(amounts[i..])
    {
      total := total + amounts[i];
    }
  }
}
