/** The Arena Pool escrow contract: its state, and what each operation does to it. */
module ArenaPool {
  import opened Common

  /** 32-byte identifiers, read as the numbers their big-endian bytes spell. */
  type Address = nat
  type GameHash = nat

  const BURN_ADDRESS: Address := 0
  const EMERGENCY_TIMEOUT_SECS: nat := 3600

  datatype Status = Active | Settled | Refunded

  datatype Game = Game(status: Status, entryFee: nat, lockTime: nat, players: seq<Address>)

  datatype Transfer = Transfer(to: Address, amount: nat)

  datatype Pool = Pool(
    version: nat,
    paused: bool,
    owner: Address,
    platform: Address,
    feeBps: nat,
    burnBps: nat,
    balance: map<Address, nat>,
    locked: map<Address, nat>,
    games: map<GameHash, Game>,
    totalFeesCollected: nat)

  /** The state before `init`: what `Default` gives. */
  const EMPTY: Pool := Pool(0, false, 0, 0, 0, 0, map[], map[], map[], 0)

  /** What one call does. `Fault` is an unchecked fixed-width operation leaving its range. */
  datatype Outcome =
    | Done(pool: Pool, transfers: seq<Transfer>)
    | Rejected(reason: string)
    | Fault

  datatype Reply = Accepted(transfers: seq<Transfer>) | Refused(reason: string) | Faulted

  datatype Op =
    | Init(initOwner: Address, initPlatform: Address, fee: nat, burn: nat)
    | Deposit(caller: Address, value: nat)
    | Withdraw(caller: Address, amount: nat)
    | LockEntries(caller: Address, game: GameHash, players: seq<Address>, entryFee: nat, lockTime: nat)
    | SettleGame(caller: Address, game: GameHash, winners: seq<Address>, amounts: seq<nat>)
    | RefundGame(caller: Address, game: GameHash)
    | EmergencyRefund(caller: Address, game: GameHash, now: nat)
    | ClaimFees(caller: Address)
    | Pause(caller: Address)
    | Unpause(caller: Address)
    | CleanupGames(caller: Address, hashes: seq<GameHash>)

  // ---------------------------------------------------------------- ledger arithmetic

  function Available(s: Pool, p: Address): nat {
    var bal, lck := Get(s.balance, p), Get(s.locked, p);
    if lck <= bal then bal - lck else 0
  }

  /** What `p` owes for its seats: one entry fee each time it is listed. */
  function Owed(players: seq<Address>, p: Address, fee: nat): nat {
    if players == [] then 0
    else (if players[0] == p then fee else 0) + Owed(players[1..], p, fee)
  }

  /** What `p` receives when `winners[i]` is paid `amounts[i]` for every i. */
  function Prize(winners: seq<Address>, amounts: seq<nat>, p: Address): nat
    requires |winners| == |amounts|
  {
    if winners == [] then 0
    else (if winners[0] == p then amounts[0] else 0) + Prize(winners[1..], amounts[1..], p)
  }

  /** One fee onto the entry of every listed address; nothing if an entry outgrows u128. */
  function Raise(m: map<Address, nat>, players: seq<Address>, fee: nat): Option<map<Address, nat>> 
    decreases |players|
  {
    if players == [] then Some(m)
    else if Get(m, players[0]) + fee >= U128_LIMIT then None
    else Raise(m[players[0] := Get(m, players[0]) + fee], players[1..], fee)
  }

  /** One fee off the entry of every listed address; nothing if an entry is too small. */
  function Lower(m: map<Address, nat>, players: seq<Address>, fee: nat): Option<map<Address, nat>> 
    decreases |players|
  {
    if players == [] then Some(m)
    else if Get(m, players[0]) < fee then None
    else Lower(m[players[0] := Get(m, players[0]) - fee], players[1..], fee)
  }

  /** `amounts[i]` onto the entry of `winners[i]`; nothing if an entry outgrows u128. */
  function Credit(m: map<Address, nat>, winners: seq<Address>, amounts: seq<nat>): Option<map<Address, nat>>
    requires |winners| == |amounts|
    decreases |winners|
  {
    if winners == [] then Some(m)
    else if Get(m, winners[0]) + amounts[0] >= U128_LIMIT then None
    else Credit(m[winners[0] := Get(m, winners[0]) + amounts[0]], winners[1..], amounts[1..])
  }

  // ---------------------------------------------------------------- meaning of the operations

  ghost function InitSpec(s: Pool, owner: Address, platform: Address, fee: nat, burn: nat): Outcome {
    if fee + burn > 10_000 then Rejected("fee_bps + burn_bps must be <= 10000")
    else Done(s.(version := 1, paused := false, owner := owner, platform := platform,
                 feeBps := fee, burnBps := burn, totalFeesCollected := 0), [])
  }

  ghost function DepositSpec(s: Pool, caller: Address, value: nat): Outcome {
    if s.paused then Rejected("contract is paused")
    else if value == 0 then Rejected("deposit value must be > 0")
    else if Get(s.balance, caller) + value >= U128_LIMIT then Fault
    else Done(s.(balance := s.balance[caller := Get(s.balance, caller) + value]), [])
  }

  ghost function WithdrawSpec(s: Pool, caller: Address, amount: nat): Outcome {
    if amount == 0 then Rejected("withdraw amount must be > 0")
    else if Available(s, caller) < amount then Rejected("insufficient available balance")
    else Done(s.(balance := s.balance[caller := Get(s.balance, caller) - amount]), [Transfer(caller, amount)])
  }

  ghost function LockSpec(s: Pool, caller: Address, game: GameHash, players: seq<Address>, fee: nat, time: nat): Outcome {
    if s.paused then Rejected("contract is paused")
    else if caller != s.platform then Rejected("caller is not the platform")
    else if players == [] then Rejected("players list must not be empty")
    else if fee == 0 then Rejected("entry_fee must be > 0")
    else if game in s.games then Rejected("game already exists (idempotency violation)")
    else if exists p :: p in players && Available(s, p) < fee then Rejected("player has insufficient available balance")
    else match Raise(s.locked, players, fee)
      case None => Fault
      case Some(locked) =>
        Done(s.(locked := locked, games := s.games[game := Game(Active, fee, time, players)]), [])
  }

  function Pot(g: Game): nat { |g.players| * g.entryFee }

  /** A share in basis points, rounded down. */
  function Share(pot: nat, bps: nat): nat { pot * bps / 10_000 }

  predicate SharesFit(pot: nat, feeBps: nat, burnBps: nat) {
    pot < U128_LIMIT && pot * feeBps < U128_LIMIT && pot * burnBps < U128_LIMIT
  }

  ghost function SettleSpec(s: Pool, caller: Address, game: GameHash, winners: seq<Address>, amounts: seq<nat>): Outcome {
    if caller != s.platform then Rejected("caller is not the platform")
    else if |winners| != |amounts| then Rejected("winners and amounts length mismatch")
    else if game !in s.games then Rejected("game does not exist")
    else
      var g := s.games[game];
      if g.status != Active then Rejected("game is not active")
      else if exists w :: w in winners && w !in g.players then Rejected("winner is not a participant in this game")
      else
        var pot := Pot(g);
        var claimed := Sum(amounts) + Share(pot, s.feeBps) + Share(pot, s.burnBps);
        if !SharesFit(pot, s.feeBps, s.burnBps) || claimed >= U128_LIMIT then Fault
        else if claimed != pot then
          Rejected("amounts + fee + burn must equal total_pool (conservation violation)")
        else SettleEffects(s, game, winners, amounts)
  }

  /** A settlement whose checks passed: charge every seat, pay the winners, keep the fee, close the game. */
  ghost function SettleEffects(s: Pool, game: GameHash, winners: seq<Address>, amounts: seq<nat>): Outcome
    requires game in s.games && |winners| == |amounts|
  {
    var g := s.games[game];
    var charged := Lower(s.balance, g.players, g.entryFee);
    var locked := Lower(s.locked, g.players, g.entryFee);
    if charged == None || locked == None then Fault
    else
      var balance := Credit(charged.value, winners, amounts);
      var fees := s.totalFeesCollected + Share(Pot(g), s.feeBps);
      var burn := Share(Pot(g), s.burnBps);
      if balance == None || fees >= U128_LIMIT then Fault
      else Done(s.(balance := balance.value, locked := locked.value, totalFeesCollected := fees,
                   games := s.games[game := g.(status := Settled)]),
                if burn > 0 then [Transfer(BURN_ADDRESS, burn)] else [])
  }

  ghost function ReleaseSpec(s: Pool, game: GameHash): Outcome
    requires game in s.games
  {
    var g := s.games[game];
    match Lower(s.locked, g.players, g.entryFee)
    case None => Fault
    case Some(locked) => Done(s.(locked := locked, games := s.games[game := g.(status := Refunded)]), [])
  }

  ghost function RefundSpec(s: Pool, caller: Address, game: GameHash): Outcome {
    if caller != s.platform then Rejected("caller is not the platform")
    else if game !in s.games then Rejected("game does not exist")
    else if s.games[game].status != Active then Rejected("game is not active")
    else ReleaseSpec(s, game)
  }

  ghost function EmergencySpec(s: Pool, caller: Address, game: GameHash, now: nat): Outcome {
    if game !in s.games then Rejected("game does not exist")
    else
      var g := s.games[game];
      if g.status != Active then Rejected("game is not active")
      else if caller !in g.players then Rejected("caller is not a participant in this game")
      else if g.lockTime + EMERGENCY_TIMEOUT_SECS >= U64_LIMIT then Fault
      else if now < g.lockTime + EMERGENCY_TIMEOUT_SECS then Rejected("emergency timeout has not elapsed")
      else ReleaseSpec(s, game)
  }

  ghost function ClaimSpec(s: Pool, caller: Address): Outcome {
    if caller != s.owner then Rejected("caller is not the owner")
    else if s.totalFeesCollected == 0 then Rejected("no fees to claim")
    else Done(s.(totalFeesCollected := 0), [Transfer(s.owner, s.totalFeesCollected)])
  }

  ghost function SwitchSpec(s: Pool, caller: Address, paused: bool): Outcome {
    if caller != s.owner then Rejected("caller is not the owner")
    else if s.paused == paused then Rejected(if paused then "contract is already paused" else "contract is not paused")
    else Done(s.(paused := paused), [])
  }

  /** The first listed hash that stops a cleanup decides the message. */
  ghost function CleanupObstacle(games: map<GameHash, Game>, hashes: seq<GameHash>): Option<string> {
    if hashes == [] then None
    else if hashes[0] !in games then Some("game does not exist")
    else if games[hashes[0]].status == Active then Some("cannot delete an active game")
    else CleanupObstacle(games, hashes[1..])
  }

  ghost function CleanupSpec(s: Pool, caller: Address, hashes: seq<GameHash>): Outcome {
    if caller != s.owner then Rejected("caller is not the owner")
    else match CleanupObstacle(s.games, hashes)
      case Some(why) => Rejected(why)
      case None => Done(s.(games := s.games - (set h | h in hashes)), [])
  }

  ghost function Step(s: Pool, op: Op): Outcome {
    match op
    case Init(owner, platform, fee, burn) => InitSpec(s, owner, platform, fee, burn)
    case Deposit(caller, value) => DepositSpec(s, caller, value)
    case Withdraw(caller, amount) => WithdrawSpec(s, caller, amount)
    case LockEntries(caller, game, players, fee, time) => LockSpec(s, caller, game, players, fee, time)
    case SettleGame(caller, game, winners, amounts) => SettleSpec(s, caller, game, winners, amounts)
    case RefundGame(caller, game) => RefundSpec(s, caller, game)
    case EmergencyRefund(caller, game, now) => EmergencySpec(s, caller, game, now)
    case ClaimFees(caller) => ClaimSpec(s, caller)
    case Pause(caller) => SwitchSpec(s, caller, true)
    case Unpause(caller) => SwitchSpec(s, caller, false)
    case CleanupGames(caller, hashes) => CleanupSpec(s, caller, hashes)
  }

  // ---------------------------------------------------------------- what the loops amount to

  /** The debt is the number of seats times the fee. */
  lemma {:induction false} OwedIsMultiplicity(players: seq<Address>, p: Address, fee: nat)
    ensures Owed(players, p, fee) == multiset(players)[p] * fee
  {
    if players != [] {
      OwedIsMultiplicity(players[1..], p, fee);
      assert players == [players[0]] + players[1..];
      var rest := multiset(players[1..])[p];
      assert (rest + 1) * fee == rest * fee + fee;
    }
  }

  lemma {:induction false} OwesNothing(players: seq<Address>, p: Address, fee: nat)
    requires p !in players
    ensures Owed(players, p, fee) == 0
  {
    if players != [] {
      OwesNothing(players[1..], p, fee);
    }
  }

  /** Raising succeeds exactly when no listed entry outgrows 128 bits, and then adds exactly what is owed. */
  lemma {:induction false} RaiseMeaning(m: map<Address, nat>, players: seq<Address>, fee: nat)
    ensures Raise(m, players, fee).Some? ==>
      forall p :: Get(Raise(m, players, fee).value, p) == Get(m, p) + Owed(players, p, fee)
    ensures Raise(m, players, fee).Some? <==> forall p :: p in players ==> Get(m, p) + Owed(players, p, fee) < U128_LIMIT
    decreases |players|
  {
    if players != [] {
      assert Owed(players, players[0], fee) >= fee;
      if Get(m, players[0]) + fee < U128_LIMIT {
        var next := m[players[0] := Get(m, players[0]) + fee];
        RaiseMeaning(next, players[1..], fee);
        forall p
          ensures Get(next, p) + Owed(players[1..], p, fee) == Get(m, p) + Owed(players, p, fee)
          ensures p in players <==> p == players[0] || p in players[1..]
        {
        }
        if players[0] !in players[1..] { OwesNothing(players[1..], players[0], fee); }
      }
    }
  }

  /** Lowering succeeds exactly when every entry covers its debt, and then takes exactly that. */
  lemma {:induction false} LowerMeaning(m: map<Address, nat>, players: seq<Address>, fee: nat)
    ensures Lower(m, players, fee).Some? <==> forall p :: Owed(players, p, fee) <= Get(m, p)
    ensures Lower(m, players, fee).Some? ==>
      forall p :: Get(Lower(m, players, fee).value, p) == Get(m, p) - Owed(players, p, fee)
    decreases |players|
  {
    if players != [] {
      if Get(m, players[0]) < fee {
        assert Owed(players, players[0], fee) >= fee;
      } else {
        var next := m[players[0] := Get(m, players[0]) - fee];
        LowerMeaning(next, players[1..], fee);
        forall p
          ensures Owed(players[1..], p, fee) <= Get(next, p) <==> Owed(players, p, fee) <= Get(m, p)
        {
        }
      }
    }
  }

  lemma {:induction false} LowerTotal(m: map<Address, nat>, players: seq<Address>, fee: nat)
    requires Lower(m, players, fee).Some?
    ensures Total(m) == Total(Lower(m, players, fee).value) + |players| * fee
    decreases |players|
  {
    if players != [] {
      var next := m[players[0] := Get(m, players[0]) - fee];
      TotalUpdate(m, players[0], Get(m, players[0]) - fee);
      LowerTotal(next, players[1..], fee);
      OneSeatMore(|players[1..]|, fee);
    }
  }

  lemma OneSeatMore(seats: nat, fee: nat)
    ensures (seats + 1) * fee == seats * fee + fee
  {
  }

  /** Crediting adds every winner's prizes to its entry, and the sum of the amounts in all. */
  lemma {:induction false} CreditMeaning(m: map<Address, nat>, winners: seq<Address>, amounts: seq<nat>)
    requires |winners| == |amounts|
    ensures Credit(m, winners, amounts).Some? ==>
      && (forall p :: Get(Credit(m, winners, amounts).value, p) == Get(m, p) + Prize(winners, amounts, p))
      && Total(Credit(m, winners, amounts).value) == Total(m) + Sum(amounts)
    ensures Total(m) + Sum(amounts) < U128_LIMIT ==> Credit(m, winners, amounts).Some?
    decreases |winners|
  {
    if winners != [] {
      TotalBounds(m, winners[0]);
      if Get(m, winners[0]) + amounts[0] < U128_LIMIT {
        var next := m[winners[0] := Get(m, winners[0]) + amounts[0]];
        TotalUpdate(m, winners[0], Get(m, winners[0]) + amounts[0]);
        CreditMeaning(next, winners[1..], amounts[1..]);
      }
    }
  }
}
