/** What every run of the Arena Pool keeps: exact locks, solvency, and a way out for every player. */
module ArenaSafety {
  import opened Common
  import opened ArenaPool

  // ---------------------------------------------------------------- the invariant

  /** What a game holds of `p`'s balance. */
  function Due(g: Game, p: Address): nat {
    if g.status == Active then Owed(g.players, p, g.entryFee) else 0
  }

  ghost function Dues(games: map<GameHash, Game>, p: Address): map<GameHash, nat> {
    map h | h in games :: Due(games[h], p)
  }

  /** Each locked amount is the sum of what the active games hold of it. */
  ghost predicate Matches(locked: map<Address, nat>, games: map<GameHash, Game>) {
    forall p :: Get(locked, p) == Total(Dues(games, p))
  }

  ghost predicate ExactLocks(s: Pool) {
    Matches(s.locked, s.games)
  }

  /** Every lock is backed by the holder's own balance. */
  ghost predicate Covered(s: Pool) {
    forall p :: Get(s.locked, p) <= Get(s.balance, p)
  }

  ghost predicate Tidy(s: Pool) {
    forall h :: h in s.games && s.games[h].status == Active ==> NoRepeats(s.games[h].players)
  }

  ghost predicate Safe(s: Pool) {
    ExactLocks(s) && Covered(s) && Tidy(s) && s.feeBps + s.burnBps <= 10_000
  }

  ghost predicate Ordinary(op: Op) {
    !op.Init? && (op.LockEntries? ==> NoRepeats(op.players))
  }

  lemma {:induction false} OwedWithoutRepeats(players: seq<Address>, p: Address, fee: nat)
    requires NoRepeats(players)
    ensures Owed(players, p, fee) == if p in players then fee else 0
  {
    if players != [] {
      OwedWithoutRepeats(players[1..], p, fee);
    }
  }

  lemma DuesAfterUpdate(games: map<GameHash, Game>, h: GameHash, g: Game, p: Address)
    ensures Total(Dues(games[h := g], p)) == Total(Dues(games, p)) - Get(Dues(games, p), h) + Due(g, p)
  {
    TotalUpdate(Dues(games, p), h, Due(g, p));
    assert Dues(games[h := g], p) == Dues(games, p)[h := Due(g, p)];
  }

  lemma DuesAfterCleanup(games: map<GameHash, Game>, hs: set<GameHash>, p: Address)
    requires forall h :: h in hs && h in games ==> games[h].status != Active
    ensures Total(Dues(games - hs, p)) == Total(Dues(games, p))
  {
    TotalDropZeros(Dues(games, p), hs);
    assert Dues(games - hs, p) == Dues(games, p) - hs;
  }

  lemma {:induction false} NoObstacleNoActive(games: map<GameHash, Game>, hashes: seq<GameHash>)
    requires CleanupObstacle(games, hashes) == None
    ensures forall h :: h in hashes ==> h in games && games[h].status != Active
  {
    if hashes != [] {
      NoObstacleNoActive(games, hashes[1..]);
    }
  }

  /** Closing an active game releases exactly what it held. */
  lemma CloseGame(s: Pool, t: Pool, h: GameHash, status: Status)
    requires ExactLocks(s) && h in s.games && s.games[h].status == Active && status != Active
    requires t.games == s.games[h := s.games[h].(status := status)]
    requires Lower(s.locked, s.games[h].players, s.games[h].entryFee) == Some(t.locked)
    ensures ExactLocks(t)
  {
    var g := s.games[h];
    LowerMeaning(s.locked, g.players, g.entryFee);
    forall p
      ensures Get(t.locked, p) == Total(Dues(t.games, p))
    {
      DuesAfterUpdate(s.games, h, g.(status := status), p);
    }
  }

  /** Opening a game locks exactly what it holds. */
  lemma OpenGame(s: Pool, t: Pool, h: GameHash, g: Game)
    requires ExactLocks(s) && h !in s.games && g.status == Active
    requires t.games == s.games[h := g] && Raise(s.locked, g.players, g.entryFee) == Some(t.locked)
    ensures ExactLocks(t)
  {
    RaiseMeaning(s.locked, g.players, g.entryFee);
    forall p
      ensures Get(t.locked, p) == Total(Dues(t.games, p))
    {
      DuesAfterUpdate(s.games, h, g, p);
    }
  }

  lemma CleanUp(s: Pool, t: Pool, hashes: seq<GameHash>)
    requires ExactLocks(s) && CleanupObstacle(s.games, hashes) == None
    requires t.locked == s.locked && t.games == s.games - (set h | h in hashes)
    ensures ExactLocks(t)
  {
    NoObstacleNoActive(s.games, hashes);
    forall p
      ensures Get(t.locked, p) == Total(Dues(t.games, p))
    {
      DuesAfterCleanup(s.games, (set h | h in hashes), p);
    }
  }

  /** The locks are exact whatever player lists the platform submits. */
  lemma StepKeepsExactLocks(s: Pool, op: Op)
    requires ExactLocks(s) && Step(s, op).Done?
    ensures ExactLocks(Step(s, op).pool)
  {
    hide Owed, Raise, Lower, Credit, CleanupObstacle, Share, Dues;
    var t := Step(s, op).pool;
    match op
    case LockEntries(caller, game, players, fee, time) => OpenGame(s, t, game, Game(Active, fee, time, players));
    case SettleGame(_, game, _, _) => CloseGame(s, t, game, Settled);
    case RefundGame(_, game) => CloseGame(s, t, game, Refunded);
    case EmergencyRefund(_, game, _) => CloseGame(s, t, game, Refunded);
    case CleanupGames(_, hashes) => CleanUp(s, t, hashes);
    case _ =>
  }

  /** Locking keeps every balance covered exactly when each listed player can pay for all of its seats. */
  lemma LockStaysCoveredIff(s: Pool, op: Op)
    requires Covered(s) && op.LockEntries? && Step(s, op).Done?
    ensures Covered(Step(s, op).pool)
       <==> forall p :: Owed(op.players, p, op.entryFee) <= Available(s, p)
  {
    var t := Step(s, op).pool;
    RaiseMeaning(s.locked, op.players, op.entryFee);
    forall p
      ensures Get(t.locked, p) <= Get(t.balance, p) <==> Owed(op.players, p, op.entryFee) <= Available(s, p)
    {
    }
  }

  /** A list naming one player twice passes every check of the lock and leaves that player's lock unbacked. */
  lemma RepeatedPlayerBreaksCover()
    ensures exists s: Pool, op: Op ::
      Safe(s) && op.LockEntries? && Step(s, op).Done? && !Covered(Step(s, op).pool)
  {
    var s := EMPTY.(balance := map[7 := 5]);
    var op := LockEntries(0, 1, [7, 7], 5, 0);
    assert Safe(s) by {
      forall p ensures Total(Dues(s.games, p)) == 0 { assert Dues(s.games, p) == map[]; }
    }
    RaiseMeaning(s.locked, op.players, 5);
    assert Owed([7], 7, 5) == 5 && Owed([7, 7], 7, 5) == 10 by { assert [7, 7][1..] == [7]; }
    assert Raise(s.locked, [7, 7], 5).Some? by { assert [7, 7][1..] == [7]; }
    assert Step(s, op).Done?;
    var t := Step(s, op).pool;
    assert Get(t.locked, 7) == 10 && Get(t.balance, 7) == 5;
  }

  lemma SettleStaysCovered(s: Pool, game: GameHash, winners: seq<Address>, amounts: seq<nat>)
    requires Covered(s) && game in s.games && |winners| == |amounts|
    requires SettleEffects(s, game, winners, amounts).Done?
    ensures Covered(SettleEffects(s, game, winners, amounts).pool)
  {
    var g, t := s.games[game], SettleEffects(s, game, winners, amounts).pool;
    LowerMeaning(s.balance, g.players, g.entryFee);
    LowerMeaning(s.locked, g.players, g.entryFee);
    CreditMeaning(Lower(s.balance, g.players, g.entryFee).value, winners, amounts);
    forall p
      ensures Get(t.locked, p) <= Get(t.balance, p)
    {
      assert Get(t.locked, p) == Get(s.locked, p) - Owed(g.players, p, g.entryFee);
    }
  }

  lemma ReleaseStaysCovered(s: Pool, game: GameHash)
    requires Covered(s) && game in s.games && ReleaseSpec(s, game).Done?
    ensures Covered(ReleaseSpec(s, game).pool)
  {
    LowerMeaning(s.locked, s.games[game].players, s.games[game].entryFee);
  }

  lemma StepStaysCovered(s: Pool, op: Op)
    requires Covered(s) && Ordinary(op) && Step(s, op).Done?
    ensures Covered(Step(s, op).pool)
  {
    match op
    case LockEntries(_, _, players, fee, _) =>
      forall p
        ensures Owed(players, p, fee) <= Available(s, p)
      {
        OwedWithoutRepeats(players, p, fee);
      }
      LockStaysCoveredIff(s, op);
    case SettleGame(_, game, winners, amounts) => SettleStaysCovered(s, game, winners, amounts);
    case RefundGame(_, game) => ReleaseStaysCovered(s, game);
    case EmergencyRefund(_, game, _) => ReleaseStaysCovered(s, game);
    case _ =>
  }

  lemma StepKeepsShares(s: Pool, op: Op)
    requires !op.Init? && Step(s, op).Done?
    ensures Step(s, op).pool.feeBps == s.feeBps && Step(s, op).pool.burnBps == s.burnBps
  {
    hide Owed, Raise, Lower, Credit, CleanupObstacle, Share;
  }

  lemma StepStaysTidy(s: Pool, op: Op)
    requires Tidy(s) && Ordinary(op) && Step(s, op).Done?
    ensures Tidy(Step(s, op).pool)
  {
    hide Owed, Raise, Lower, Credit, CleanupObstacle, Share;
  }

  lemma StepKeepsSafe(s: Pool, op: Op)
    requires Safe(s) && Ordinary(op) && Step(s, op).Done?
    ensures Safe(Step(s, op).pool)
  {
    var t := Step(s, op).pool;
    assert ExactLocks(t) by { StepKeepsExactLocks(s, op); }
    assert Covered(t) by { StepStaysCovered(s, op); }
    assert Tidy(t) && t.feeBps + t.burnBps <= 10_000 by { StepStaysTidy(s, op); StepKeepsShares(s, op); }
  }

  // ---------------------------------------------------------------- solvency

  ghost function Holdings(s: Pool): nat {
    Total(s.balance) + s.totalFeesCollected
  }

  function Sent(transfers: seq<Transfer>): nat {
    if transfers == [] then 0 else transfers[0].amount + Sent(transfers[1..])
  }

  function Received(op: Op): nat {
    if op.Deposit? then op.value else 0
  }

  /** The rounded-down fee and burn never take more than the pot. */
  lemma SharesStayWithinPot(pot: nat, feeBps: nat, burnBps: nat)
    requires feeBps + burnBps <= 10_000
    ensures Share(pot, feeBps) + Share(pot, burnBps) <= pot
  {
    assert pot * feeBps + pot * burnBps == pot * (feeBps + burnBps);
    assert pot * (feeBps + burnBps) <= pot * 10_000;
  }

  lemma SettleConserves(s: Pool, game: GameHash, winners: seq<Address>, amounts: seq<nat>)
    requires game in s.games && |winners| == |amounts| && SettleEffects(s, game, winners, amounts).Done?
    requires Sum(amounts) + Share(Pot(s.games[game]), s.feeBps) + Share(Pot(s.games[game]), s.burnBps) == Pot(s.games[game])
    ensures var out := SettleEffects(s, game, winners, amounts);
      Holdings(out.pool) + Sent(out.transfers) == Holdings(s)
  {
    var g := s.games[game];
    LowerTotal(s.balance, g.players, g.entryFee);
    CreditMeaning(Lower(s.balance, g.players, g.entryFee).value, winners, amounts);
    var transfers := SettleEffects(s, game, winners, amounts).transfers;
    assert Sent(transfers) == Share(Pot(g), s.burnBps) by {
      assert transfers != [] ==> transfers[1..] == [];
    }
  }

  lemma SentOne(t: Transfer)
    ensures Sent([]) == 0 && Sent([t]) == t.amount
  {
    assert [t][1..] == [];
  }

  /** Every accepted call keeps holdings in balance with what came in and what goes out. */
  lemma StepConserves(s: Pool, op: Op)
    requires Step(s, op).Done? && !op.Init?
    ensures Holdings(Step(s, op).pool) + Sent(Step(s, op).transfers) == Holdings(s) + Received(op)
  {
    hide Owed, Raise, Lower, Credit, CleanupObstacle, Share, Sent, Total, SettleEffects;
    SentOne(Transfer(0, 0));
    match op
    case Deposit(caller, value) => TotalUpdate(s.balance, caller, Get(s.balance, caller) + value);
    case Withdraw(caller, amount) =>
      TotalUpdate(s.balance, caller, Get(s.balance, caller) - amount);
      SentOne(Transfer(caller, amount));
    case SettleGame(_, game, winners, amounts) => SettleConserves(s, game, winners, amounts);
    case ClaimFees(_) => SentOne(Transfer(s.owner, s.totalFeesCollected));
    case _ =>
  }

  // ---------------------------------------------------------------- runs

  /** A refused or faulting call is rolled back by the virtual machine. */
  ghost function After(s: Pool, op: Op): Pool {
    var out := Step(s, op);
    if out.Done? then out.pool else s
  }

  ghost function Run(s: Pool, ops: seq<Op>): Pool {
    if ops == [] then s else After(Run(s, ops[..|ops| - 1]), ops[|ops| - 1])
  }

  /** Deposits accepted, and amounts transferred out, along a run. */
  ghost function Inflow(s: Pool, ops: seq<Op>): nat {
    if ops == [] then 0
    else
      var before, op := Run(s, ops[..|ops| - 1]), ops[|ops| - 1];
      Inflow(s, ops[..|ops| - 1]) + if Step(before, op).Done? then Received(op) else 0
  }

  ghost function Outflow(s: Pool, ops: seq<Op>): nat {
    if ops == [] then 0
    else
      var out := Step(Run(s, ops[..|ops| - 1]), ops[|ops| - 1]);
      Outflow(s, ops[..|ops| - 1]) + if out.Done? then Sent(out.transfers) else 0
  }

  /** The pool as a successful first call of `init` leaves it. */
  ghost predicate Initialised(s: Pool) {
    exists op: Op :: op.Init? && Step(EMPTY, op) == Done(s, [])
  }

  lemma InitialisedIsSafe(s: Pool)
    requires Initialised(s)
    ensures Safe(s) && Holdings(s) == 0
  {
    forall p ensures Total(Dues(s.games, p)) == 0 { assert Dues(s.games, p) == map[]; }
  }

  /** In every reachable state each lock is the sum of what the active games hold, and the shares are as set at first. */
  lemma {:induction false} ExactLockAccounting(s: Pool, ops: seq<Op>)
    requires Initialised(s) && forall op :: op in ops ==> !op.Init?
    ensures ExactLocks(Run(s, ops)) && Run(s, ops).feeBps + Run(s, ops).burnBps <= 10_000
  {
    if ops == [] {
      InitialisedIsSafe(s);
    } else {
      ExactLockAccounting(s, ops[..|ops| - 1]);
      var before, op := Run(s, ops[..|ops| - 1]), ops[|ops| - 1];
      if Step(before, op).Done? {
        StepKeepsExactLocks(before, op);
        StepKeepsShares(before, op);
      }
    }
  }

  /** With repeat-free player lists every lock is also covered by its holder's balance. */
  lemma {:induction false} ReachableIsSafe(s: Pool, ops: seq<Op>)
    requires Initialised(s) && forall op :: op in ops ==> Ordinary(op)
    ensures Safe(Run(s, ops))
  {
    if ops == [] {
      InitialisedIsSafe(s);
    } else {
      ReachableIsSafe(s, ops[..|ops| - 1]);
      var before, op := Run(s, ops[..|ops| - 1]), ops[|ops| - 1];
      if Step(before, op).Done? {
        StepKeepsSafe(before, op);
      }
    }
  }

  /** Deposits less transfers equal the balances plus the unclaimed fees, over every run. */
  lemma {:induction false} Solvency(s: Pool, ops: seq<Op>)
    requires Initialised(s) && forall op :: op in ops ==> !op.Init?
    ensures Holdings(Run(s, ops)) + Outflow(s, ops) == Inflow(s, ops)
  {
    if ops == [] {
      InitialisedIsSafe(s);
    } else {
      Solvency(s, ops[..|ops| - 1]);
      var before, op := Run(s, ops[..|ops| - 1]), ops[|ops| - 1];
      if Step(before, op).Done? {
        StepConserves(before, op);
      }
    }
  }

  // ---------------------------------------------------------------- no arithmetic fault

  /** The inputs that alone can push an operation out of its fixed-width range. */
  ghost predicate OversizedInput(s: Pool, op: Op) {
    match op
    case Deposit(caller, value) => !s.paused && value > 0 && Get(s.balance, caller) + value >= U128_LIMIT
    case SettleGame(caller, game, winners, amounts) =>
      && caller == s.platform && |winners| == |amounts|
      && game in s.games && s.games[game].status == Active
      && (forall w :: w in winners ==> w in s.games[game].players)
      && Sum(amounts) + Share(Pot(s.games[game]), s.feeBps) + Share(Pot(s.games[game]), s.burnBps) >= U128_LIMIT
    case EmergencyRefund(caller, game, _) =>
      && game in s.games && s.games[game].status == Active && caller in s.games[game].players
      && s.games[game].lockTime + EMERGENCY_TIMEOUT_SECS >= U64_LIMIT
    case _ => false
  }

  /** An active game's locks can all be released. */
  lemma ActiveGameIsLocked(s: Pool, h: GameHash)
    requires ExactLocks(s) && h in s.games && s.games[h].status == Active
    ensures Lower(s.locked, s.games[h].players, s.games[h].entryFee).Some?
    ensures forall p :: Owed(s.games[h].players, p, s.games[h].entryFee) <= Get(s.locked, p)
  {
    var g := s.games[h];
    forall p
      ensures Owed(g.players, p, g.entryFee) <= Get(s.locked, p)
    {
      TotalBounds(Dues(s.games, p), h);
    }
    LowerMeaning(s.locked, g.players, g.entryFee);
  }

  /** An active game's seats can all be charged. */
  lemma ActiveGameIsPayable(s: Pool, h: GameHash)
    requires Safe(s) && h in s.games && s.games[h].status == Active
    ensures Lower(s.locked, s.games[h].players, s.games[h].entryFee).Some?
    ensures Lower(s.balance, s.games[h].players, s.games[h].entryFee).Some?
    ensures Pot(s.games[h]) <= Total(s.balance)
  {
    var g := s.games[h];
    ActiveGameIsLocked(s, h);
    LowerMeaning(s.balance, g.players, g.entryFee);
    LowerTotal(s.balance, g.players, g.entryFee);
  }

  lemma ProductFits(pot: nat, bps: nat, bound: nat)
    requires pot <= bound && bps <= 10_000
    ensures pot * bps <= bound * 10_000
  {
    assert pot * bps <= pot * 10_000;
  }

  /** Some player of the game cannot pay for all of its seats. */
  ghost predicate Uncovered(s: Pool, g: Game) {
    exists p :: Owed(g.players, p, g.entryFee) > Get(s.balance, p)
  }

  /** A lock that some player's locked amount has no room for. */
  ghost predicate OversizedLock(s: Pool, op: Op) {
    && op.LockEntries? && !s.paused && op.caller == s.platform && op.players != [] && op.entryFee > 0 && op.game !in s.games
    && (forall p :: p in op.players ==> Available(s, p) >= op.entryFee)
    && exists p :: p in op.players && Get(s.locked, p) + Owed(op.players, p, op.entryFee) >= U128_LIMIT
  }

  /** A settlement that adds up, or has a pot too large to share, of a game whose seats are not all covered. */
  ghost predicate UncoveredSettlement(s: Pool, op: Op) {
    && op.SettleGame? && op.caller == s.platform && |op.winners| == |op.amounts|
    && op.game in s.games && s.games[op.game].status == Active
    && (forall w :: w in op.winners ==> w in s.games[op.game].players)
    && Uncovered(s, s.games[op.game])
    && var pot := Pot(s.games[op.game]);
       Sum(op.amounts) + Share(pot, s.feeBps) + Share(pot, s.burnBps) == pot || !SharesFit(pot, s.feeBps, s.burnBps)
  }

  /** Below the holdings bound, the pot of a game with covered seats can be shared, and amounts that add up settle. */
  lemma SettlementFits(s: Pool, h: GameHash, winners: seq<Address>, amounts: seq<nat>)
    requires ExactLocks(s) && s.feeBps + s.burnBps <= 10_000 && Holdings(s) * 10_000 < U128_LIMIT
    requires h in s.games && s.games[h].status == Active && |winners| == |amounts| && !Uncovered(s, s.games[h])
    ensures SharesFit(Pot(s.games[h]), s.feeBps, s.burnBps)
    ensures Sum(amounts) + Share(Pot(s.games[h]), s.feeBps) + Share(Pot(s.games[h]), s.burnBps) == Pot(s.games[h])
      ==> SettleEffects(s, h, winners, amounts).Done?
  {
    var g := s.games[h];
    LowerMeaning(s.balance, g.players, g.entryFee);
    LowerTotal(s.balance, g.players, g.entryFee);
    ProductFits(Pot(g), s.feeBps, Holdings(s));
    ProductFits(Pot(g), s.burnBps, Holdings(s));
    if Sum(amounts) + Share(Pot(g), s.feeBps) <= Pot(g) {
      PayoutFits(s, h, winners, amounts);
    }
  }

  lemma PayoutFits(s: Pool, h: GameHash, winners: seq<Address>, amounts: seq<nat>)
    requires ExactLocks(s) && Holdings(s) < U128_LIMIT
    requires h in s.games && s.games[h].status == Active && |winners| == |amounts| && !Uncovered(s, s.games[h])
    requires Sum(amounts) + Share(Pot(s.games[h]), s.feeBps) <= Pot(s.games[h])
    ensures SettleEffects(s, h, winners, amounts).Done?
  {
    var g := s.games[h];
    ActiveGameIsLocked(s, h);
    LowerMeaning(s.balance, g.players, g.entryFee);
    LowerTotal(s.balance, g.players, g.entryFee);
    CreditMeaning(Lower(s.balance, g.players, g.entryFee).value, winners, amounts);
  }

  lemma SettlementFaultsIff(s: Pool, op: Op)
    requires ExactLocks(s) && s.feeBps + s.burnBps <= 10_000 && op.SettleGame? && Holdings(s) * 10_000 < U128_LIMIT
    ensures Step(s, op) == Fault <==> OversizedInput(s, op) || UncoveredSettlement(s, op)
  {
    hide ExactLocks, Owed, Lower, Credit, Share;
    if op.game in s.games && s.games[op.game].status == Active && |op.winners| == |op.amounts| {
      var g := s.games[op.game];
      LowerMeaning(s.balance, g.players, g.entryFee);
      if !Uncovered(s, g) { SettlementFits(s, op.game, op.winners, op.amounts); }
    }
  }

  /** In every reachable state below the holdings bound, repeated players included: arithmetic leaves its range exactly on an
    * oversized input, an oversized lock, or a settlement of a game whose seats are not all covered. No refund faults on locks. */
  lemma FaultsIff(s: Pool, op: Op)
    requires ExactLocks(s) && s.feeBps + s.burnBps <= 10_000 && !op.Init? && Holdings(s) * 10_000 < U128_LIMIT
    ensures Step(s, op) == Fault <==> OversizedInput(s, op) || OversizedLock(s, op) || UncoveredSettlement(s, op)
  {
    hide ExactLocks, Owed, Lower, Raise, Credit, Share, Holdings, Uncovered;
    match op
    case LockEntries(_, _, players, fee, _) => RaiseMeaning(s.locked, players, fee);
    case SettleGame(_, _, _, _) => SettlementFaultsIff(s, op);
    case RefundGame(_, game) =>
      if game in s.games && s.games[game].status == Active { ActiveGameIsLocked(s, game); }
    case EmergencyRefund(_, game, _) =>
      if game in s.games && s.games[game].status == Active { ActiveGameIsLocked(s, game); }
    case _ =>
  }

  /** With repeat-free lists only oversized inputs are left. */
  lemma FaultsOnlyOnOversizedInput(s: Pool, op: Op)
    requires Safe(s) && Ordinary(op) && Holdings(s) * 10_000 < U128_LIMIT
    ensures Step(s, op) == Fault <==> OversizedInput(s, op)
  {
    hide Step;
    FaultsIff(s, op);
    if op.LockEntries? {
      forall p | p in op.players && Available(s, p) >= op.entryFee
        ensures Get(s.locked, p) + Owed(op.players, p, op.entryFee) < U128_LIMIT
      {
        OwedWithoutRepeats(op.players, p, op.entryFee);
        TotalBounds(s.balance, p);
      }
    }
    if op.SettleGame? && op.game in s.games && s.games[op.game].status == Active {
      ActiveGameIsPayable(s, op.game);
      LowerMeaning(s.balance, s.games[op.game].players, s.games[op.game].entryFee);
    }
  }

  // ---------------------------------------------------------------- the way out

  /** All calls in a row, if each of them is accepted. */
  ghost function AllAccepted(s: Pool, ops: seq<Op>): Option<Pool>
    decreases |ops|
  {
    if ops == [] then Some(s)
    else
      var out := Step(s, ops[0]);
      if out.Done? then AllAccepted(out.pool, ops[1..]) else None
  }

  ghost predicate PlaysIn(s: Pool, p: Address, h: GameHash) {
    h in s.games && s.games[h].status == Active && p in s.games[h].players
  }

  ghost predicate TimedOut(s: Pool, h: GameHash, now: nat)
    requires h in s.games
  {
    s.games[h].lockTime + EMERGENCY_TIMEOUT_SECS < U64_LIMIT && s.games[h].lockTime + EMERGENCY_TIMEOUT_SECS <= now
  }

  /** `hashes` names every active game of `p` once, in any order. */
  ghost predicate ListsGamesOf(s: Pool, p: Address, hashes: seq<GameHash>) {
    NoRepeats(hashes) && forall h :: h in hashes <==> PlaysIn(s, p, h)
  }

  function RefundPlan(p: Address, hashes: seq<GameHash>, now: nat): seq<Op> {
    if hashes == [] then [] else [EmergencyRefund(p, hashes[0], now)] + RefundPlan(p, hashes[1..], now)
  }

  lemma NoGamesNoLock(s: Pool, p: Address)
    requires ExactLocks(s) && forall h :: !PlaysIn(s, p, h)
    ensures Get(s.locked, p) == 0
  {
    var dues := Dues(s.games, p);
    forall h | h in dues
      ensures dues[h] == 0
    {
      if s.games[h].status == Active {
        assert !PlaysIn(s, p, h);
        OwesNothing(s.games[h].players, p, s.games[h].entryFee);
      }
    }
    TotalDropZeros(dues, dues.Keys);
    assert dues - dues.Keys == map[];
  }

  lemma RefundOne(s: Pool, p: Address, h: GameHash, now: nat)
    requires ExactLocks(s) && PlaysIn(s, p, h) && TimedOut(s, h, now)
    ensures Step(s, EmergencyRefund(p, h, now)).Done?
    ensures var t := Step(s, EmergencyRefund(p, h, now)).pool;
      ExactLocks(t) && t.balance == s.balance && t.games == s.games[h := s.games[h].(status := Refunded)]
  {
    ActiveGameIsLocked(s, h);
    StepKeepsExactLocks(s, EmergencyRefund(p, h, now));
  }

  /** Once the timeouts have passed, a player's refunds all go through and free the whole balance. */
  lemma {:induction false} RefundsFreeBalance(s: Pool, p: Address, hashes: seq<GameHash>, now: nat)
    requires ExactLocks(s) && ListsGamesOf(s, p, hashes)
    requires forall h :: h in hashes ==> TimedOut(s, h, now)
    ensures AllAccepted(s, RefundPlan(p, hashes, now)).Some?
    ensures var t := AllAccepted(s, RefundPlan(p, hashes, now)).value;
      ExactLocks(t) && t.balance == s.balance && Get(t.locked, p) == 0
    decreases |hashes|
  {
    if hashes == [] {
      NoGamesNoLock(s, p);
    } else {
      var h := hashes[0];
      RefundOne(s, p, h, now);
      var t := Step(s, EmergencyRefund(p, h, now)).pool;
      assert ListsGamesOf(t, p, hashes[1..]) by {
        forall k
          ensures k in hashes[1..] <==> PlaysIn(t, p, k)
        {
          assert k in hashes <==> k == h || k in hashes[1..];
        }
      }
      forall k | k in hashes[1..]
        ensures TimedOut(t, k, now)
      {
        assert k in hashes && TimedOut(s, k, now);
      }
      RefundsFreeBalance(t, p, hashes[1..], now);
      assert RefundPlan(p, hashes, now)[1..] == RefundPlan(p, hashes[1..], now);
    }
  }

  /** The escape hatch: from every reachable state, refunds then one withdrawal pay a player out in full. Player lists may
    * repeat a player: a lock larger than its holder's balance is released like any other. */
  lemma EscapeHatch(init: Pool, ops: seq<Op>, p: Address, hashes: seq<GameHash>, now: nat)
    requires Initialised(init) && forall op :: op in ops ==> !op.Init?
    requires ListsGamesOf(Run(init, ops), p, hashes)
    requires forall h :: h in hashes ==> TimedOut(Run(init, ops), h, now)
    ensures var s := Run(init, ops);
      var t := AllAccepted(s, RefundPlan(p, hashes, now));
      && t.Some?
      && (Get(s.balance, p) > 0 ==>
           var out := Step(t.value, Withdraw(p, Get(s.balance, p)));
           out.Done? && out.transfers == [Transfer(p, Get(s.balance, p))] && Get(out.pool.balance, p) == 0)
  {
    ExactLockAccounting(init, ops);
    RefundsFreeBalance(Run(init, ops), p, hashes, now);
  }
}
