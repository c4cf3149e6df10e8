/** Who may call what at the Arena Pool, and what each call does to every single player. */
module ArenaEffects {
  import opened Common
  import opened ArenaPool
  import opened ArenaSafety

  // ---------------------------------------------------------------- who may call what

  predicate IsActive(s: Pool, game: GameHash) {
    game in s.games && s.games[game].status == Active
  }

  /** The prizes, the fee and the burn, each rounded down, make up the pot. */
  predicate AddsUp(s: Pool, g: Game, amounts: seq<nat>) {
    var pot := |g.players| * g.entryFee;
    Sum(amounts) + pot * s.feeBps / 10_000 + pot * s.burnBps / 10_000 == pot
  }

  /** What the contract asks of a call. */
  ghost predicate Permitted(s: Pool, op: Op) {
    match op
    case Init(_, _, fee, burn) => fee + burn <= 10_000
    case Deposit(_, value) => !s.paused && value > 0
    case Withdraw(caller, amount) => amount > 0 && Get(s.locked, caller) + amount <= Get(s.balance, caller)
    case LockEntries(caller, game, players, fee, _) =>
      && !s.paused && caller == s.platform && players != [] && fee > 0 && game !in s.games
      && forall p :: p in players ==> Get(s.locked, p) + fee <= Get(s.balance, p)
    case SettleGame(caller, game, winners, amounts) =>
      && caller == s.platform && |winners| == |amounts| && IsActive(s, game)
      && (forall w :: w in winners ==> w in s.games[game].players)
      && AddsUp(s, s.games[game], amounts)
    case RefundGame(caller, game) => caller == s.platform && IsActive(s, game)
    case EmergencyRefund(caller, game, now) =>
      IsActive(s, game) && caller in s.games[game].players && s.games[game].lockTime + 3600 <= now
    case ClaimFees(caller) => caller == s.owner && s.totalFeesCollected > 0
    case Pause(caller) => caller == s.owner && !s.paused
    case Unpause(caller) => caller == s.owner && s.paused
    case CleanupGames(caller, hashes) =>
      caller == s.owner && forall h :: h in hashes ==> h in s.games && s.games[h].status != Active
  }

  lemma {:induction false} ObstacleIff(games: map<GameHash, Game>, hashes: seq<GameHash>)
    ensures CleanupObstacle(games, hashes) == None <==> forall h :: h in hashes ==> h in games && games[h].status != Active
  {
    if hashes != [] {
      ObstacleIff(games, hashes[1..]);
      assert forall h :: h in hashes <==> h == hashes[0] || h in hashes[1..];
    }
  }

  lemma SettlesIff(s: Pool, op: Op)
    requires op.SettleGame?
    ensures Step(s, op).Done? <==> Permitted(s, op) && Step(s, op) != Fault
  {
    hide Raise, Lower, Credit, CleanupObstacle, Sum, Available;
  }

  /** Exactly the permitted calls go through, but for those whose arithmetic leaves its range. */
  lemma DoneIff(s: Pool, op: Op)
    ensures Step(s, op).Done? <==> Permitted(s, op) && Step(s, op) != Fault
  {
    hide Raise, Lower, Credit, CleanupObstacle, Sum, SettleSpec;
    match op
    case SettleGame(_, _, _, _) => SettlesIff(s, op);
    case CleanupGames(_, hashes) => ObstacleIff(s.games, hashes);
    case _ =>
  }

  // ---------------------------------------------------------------- what a call does

  function Seats(players: seq<Address>, p: Address): nat {
    multiset(players)[p]
  }

  /** A prize of a winner listed once is its amount; who does not win gets nothing. */
  lemma {:induction false} PrizeOfWinner(winners: seq<Address>, amounts: seq<nat>, p: Address)
    requires |winners| == |amounts|
    ensures p !in winners ==> Prize(winners, amounts, p) == 0
    ensures forall i :: 0 <= i < |winners| && winners[i] == p && multiset(winners)[p] == 1 ==> Prize(winners, amounts, p) == amounts[i]
  {
    if winners != [] {
      PrizeOfWinner(winners[1..], amounts[1..], p);
      assert winners == [winners[0]] + winners[1..];
      forall i | 0 <= i < |winners| && winners[i] == p && multiset(winners)[p] == 1
        ensures Prize(winners, amounts, p) == amounts[i]
      {
        if i > 0 { assert winners[1..][i - 1] == p && p in multiset(winners[1..]); }
      }
    }
  }

  /** What a call that goes through adds to the balance of `p`. */
  function Gains(s: Pool, op: Op, p: Address): nat {
    match op
    case Deposit(caller, value) => if p == caller then value else 0
    case SettleGame(_, _, winners, amounts) => if |winners| == |amounts| then Prize(winners, amounts, p) else 0
    case _ => 0
  }

  /** What it takes: the amount from one who withdraws, and one fee a seat from everyone in a game that is settled. */
  function Pays(s: Pool, op: Op, p: Address): nat {
    match op
    case Withdraw(caller, amount) => if p == caller then amount else 0
    case SettleGame(_, game, _, _) => if game in s.games then Seats(s.games[game].players, p) * s.games[game].entryFee else 0
    case _ => 0
  }

  /** What it locks, and unlocks. */
  function Locks(op: Op, p: Address): nat {
    if op.LockEntries? then Seats(op.players, p) * op.entryFee else 0
  }

  function Closes(op: Op): Option<GameHash> {
    match op
    case SettleGame(_, game, _, _) => Some(game)
    case RefundGame(_, game) => Some(game)
    case EmergencyRefund(_, game, _) => Some(game)
    case _ => None
  }

  function Unlocks(s: Pool, op: Op, p: Address): nat {
    if Closes(op).Some? && Closes(op).value in s.games
    then Seats(s.games[Closes(op).value].players, p) * s.games[Closes(op).value].entryFee else 0
  }

  /** The transfers that leave the contract. */
  function Sends(s: Pool, op: Op): seq<Transfer> {
    match op
    case Withdraw(caller, amount) => [Transfer(caller, amount)]
    case ClaimFees(_) => [Transfer(s.owner, s.totalFeesCollected)]
    case SettleGame(_, game, _, _) =>
      if game !in s.games then []
      else
        var burn := |s.games[game].players| * s.games[game].entryFee * s.burnBps / 10_000;
        if burn == 0 then [] else [Transfer(0, burn)]
    case _ => []
  }

  lemma SettlementBalances(s: Pool, op: Op, p: Address)
    requires op.SettleGame? && Step(s, op).Done?
    ensures var t := Step(s, op).pool;
      && Get(t.balance, p) + Pays(s, op, p) == Get(s.balance, p) + Gains(s, op, p)
      && Get(t.locked, p) + Unlocks(s, op, p) == Get(s.locked, p)
  {
    var g := s.games[op.game];
    LowerMeaning(s.balance, g.players, g.entryFee);
    LowerMeaning(s.locked, g.players, g.entryFee);
    CreditMeaning(Lower(s.balance, g.players, g.entryFee).value, op.winners, op.amounts);
    OwedIsMultiplicity(g.players, p, g.entryFee);
    hide Owed, Lower, Credit, Share, Prize, Total;
  }

  /** What a call does to any one player: deposits and withdrawals move the caller's balance and nobody else's; a settlement
    * charges each seat and pays each prize; only locks, settlements and refunds move locked amounts. */
  lemma PlayerMeaning(s: Pool, op: Op, p: Address)
    requires Step(s, op).Done?
    ensures var t := Step(s, op).pool;
      && Get(t.balance, p) + Pays(s, op, p) == Get(s.balance, p) + Gains(s, op, p)
      && Get(t.locked, p) + Unlocks(s, op, p) == Get(s.locked, p) + Locks(op, p)
  {
    hide Owed, Raise, Lower, Credit, CleanupObstacle, Share, SettleSpec, Seats, Prize;
    match op
    case LockEntries(_, _, players, fee, _) =>
      RaiseMeaning(s.locked, players, fee);
      SeatsOwe(players, p, fee);
    case SettleGame(_, _, _, _) => SettlementBalances(s, op, p);
    case RefundGame(_, game) =>
      LowerMeaning(s.locked, s.games[game].players, s.games[game].entryFee);
      SeatsOwe(s.games[game].players, p, s.games[game].entryFee);
    case EmergencyRefund(_, game, _) =>
      LowerMeaning(s.locked, s.games[game].players, s.games[game].entryFee);
      SeatsOwe(s.games[game].players, p, s.games[game].entryFee);
    case _ =>
  }

  lemma SeatsOwe(players: seq<Address>, p: Address, fee: nat)
    ensures Owed(players, p, fee) == Seats(players, p) * fee
  {
    OwedIsMultiplicity(players, p, fee);
  }

  /** The games after a call. */
  function GamesAfter(s: Pool, op: Op): map<GameHash, Game> {
    match op
    case LockEntries(_, game, players, fee, time) => s.games[game := Game(Active, fee, time, players)]
    case CleanupGames(_, hashes) => s.games - (set h | h in hashes)
    case _ =>
      if Closes(op).Some? && Closes(op).value in s.games then
        s.games[Closes(op).value := s.games[Closes(op).value].(status := if op.SettleGame? then Settled else Refunded)]
      else s.games
  }

  function FeesAfter(s: Pool, op: Op): nat {
    match op
    case Init(_, _, _, _) => 0
    case ClaimFees(_) => 0
    case SettleGame(_, game, _, _) =>
      s.totalFeesCollected + if game in s.games then |s.games[game].players| * s.games[game].entryFee * s.feeBps / 10_000 else 0
    case _ => s.totalFeesCollected
  }

  /** The rest of the pool: owner, platform and shares are set by `init` alone, the switch by pausing. */
  predicate RestAfter(s: Pool, op: Op, t: Pool) {
    && t.paused == (if op.Pause? then true else if op.Unpause? || op.Init? then false else s.paused)
    && (t.owner, t.platform, t.feeBps, t.burnBps, t.version)
       == if op.Init? then (op.initOwner, op.initPlatform, op.fee, op.burn, 1)
          else (s.owner, s.platform, s.feeBps, s.burnBps, s.version)
  }

  lemma SettlementPool(s: Pool, op: Op)
    requires op.SettleGame? && Step(s, op).Done?
    ensures Step(s, op).transfers == Sends(s, op)
    ensures var t := Step(s, op).pool; t.games == GamesAfter(s, op) && t.totalFeesCollected == FeesAfter(s, op) && RestAfter(s, op, t)
  {
    hide Raise, Lower, Credit, CleanupObstacle, Sum;
  }

  /** What a call does besides: games open, close and disappear, fees are collected and claimed, the switch is set, and the
    * transfers are these. */
  lemma PoolMeaning(s: Pool, op: Op)
    requires Step(s, op).Done?
    ensures Step(s, op).transfers == Sends(s, op)
    ensures var t := Step(s, op).pool; t.games == GamesAfter(s, op) && t.totalFeesCollected == FeesAfter(s, op) && RestAfter(s, op, t)
  {
    hide Raise, Lower, Credit, CleanupObstacle, Sum, SettleSpec;
    if op.SettleGame? {
      SettlementPool(s, op);
    }
  }

  // ---------------------------------------------------------------- runs

  /** What `p` gains and pays along a run. */
  ghost function GainsAlong(s: Pool, ops: seq<Op>, p: Address): nat {
    if ops == [] then 0
    else
      var before, op := Run(s, ops[..|ops| - 1]), ops[|ops| - 1];
      GainsAlong(s, ops[..|ops| - 1], p) + if Step(before, op).Done? then Gains(before, op, p) else 0
  }

  ghost function PaysAlong(s: Pool, ops: seq<Op>, p: Address): nat {
    if ops == [] then 0
    else
      var before, op := Run(s, ops[..|ops| - 1]), ops[|ops| - 1];
      PaysAlong(s, ops[..|ops| - 1], p) + if Step(before, op).Done? then Pays(before, op, p) else 0
  }

  /** Over every run a player holds what it deposited and won, less what it withdrew and its seats cost. */
  lemma {:induction false} PlayerAccount(s: Pool, ops: seq<Op>, p: Address)
    ensures Get(Run(s, ops).balance, p) + PaysAlong(s, ops, p) == Get(s.balance, p) + GainsAlong(s, ops, p)
  {
    hide Step, Gains, Pays;
    if ops != [] {
      PlayerAccount(s, ops[..|ops| - 1], p);
      var before, op := Run(s, ops[..|ops| - 1]), ops[|ops| - 1];
      if Step(before, op).Done? { PlayerMeaning(before, op, p); }
    }
  }
}
