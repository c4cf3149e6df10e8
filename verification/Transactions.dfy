/** What one transaction does to the state: accepted, refused, and refused with a trace left behind. */
module Transactions {
  import opened Common
  import opened ConsensusTypes
  import opened NodeTypes
  import Rewards
  import Staking

  // ---------------------------------------------------------------- gas

  lemma BalanceBooks(w: World, a: Address, x: nat)
    ensures Books(WithBalance(w, a, x)) == Books(w).(balances := w.ledger.balances[a := x])
    ensures Supply(WithBalance(w, a, x)) == Supply(w) - Get(w.ledger.balances, a) + x
  {
    SameAccounts(w, WithBalance(w, a, x));
    hide Accounts;
    TotalUpdate(w.ledger.balances, a, x);
  }

  lemma BalanceOnly(w: World, a: Address, x: nat)
    ensures WithBalance(w, a, x).miners == w.miners && WithBalance(w, a, x).stakes == w.stakes
  {
  }

  lemma ChargedBooks(w: World, a: Address, fee: nat)
    requires fee <= Get(w.ledger.balances, a)
    ensures Supply(Charged(w, a, fee)) + fee == Supply(w)
    ensures Rewards.KeepsBookings(Books(w), Books(Charged(w, a, fee)))
    ensures Charged(w, a, fee).miners == w.miners && Charged(w, a, fee).stakes == w.stakes
  {
    hide Books, Supply, Accounts, WithBalance, Get;
    if fee > 0 {
      BalanceBooks(w, a, Get(w.ledger.balances, a) - fee);
      BalanceOnly(w, a, Get(w.ledger.balances, a) - fee);
    }
  }

  lemma RefundedBooks(w: World, a: Address, fee: nat)
    ensures Supply(Refunded(w, a, fee)) == Supply(w) + fee
    ensures Rewards.KeepsBookings(Books(w), Books(Refunded(w, a, fee)))
    ensures Refunded(w, a, fee).miners == w.miners && Refunded(w, a, fee).stakes == w.stakes
  {
    hide Books, Supply, Accounts, WithBalance, Get;
    if fee > 0 {
      BalanceBooks(w, a, Get(w.ledger.balances, a) + fee);
      BalanceOnly(w, a, Get(w.ledger.balances, a) + fee);
    }
  }

  lemma RefundUndoesCharge(w: World, a: Address, fee: nat)
    requires fee <= Get(w.ledger.balances, a)
    ensures Refunded(Charged(w, a, fee), a, fee) == w
  {
    if fee > 0 {
      assert w.ledger.balances[a := Get(w.ledger.balances, a) - fee][a := Get(w.ledger.balances, a)] == w.ledger.balances;
    }
  }

  lemma SameAccounts(w: World, v: World)
    requires v.miners == w.miners && v.ledger.accounts == w.ledger.accounts
    ensures Accounts(v) == Accounts(w)
  {
  }

  // ---------------------------------------------------------------- the staking handlers in place

  /** A staking outcome, put into the world, is what the books then show. */
  lemma StakedBooks(w: World, o: Staking.Outcome)
    requires o.books.miners == Books(w).miners && o.books.bucket == Books(w).bucket
    ensures Books(Staked(w, o).0) == o.books && Staked(w, o).0.miners == w.miners
  {
    SameAccounts(w, Staked(w, o).0);
  }

  lemma UnchangedBooks(w: World, o: Staking.Outcome)
    requires o.books.miners == Books(w).miners && o.books.bucket == Books(w).bucket
    ensures Staked(w, o).0 == w <==> o.books == Books(w)
  {
    StakedBooks(w, o);
  }

  /** Tokens that a transaction takes out of circulation when its handler refuses it: the whole unbonding queue for a claim,
    * the amount for a withdrawal that meets the limit on entries. */
  function RefusalLoss(k: Kernel, w: World, tx: Tx): nat {
    if !k.Reaches(w, tx) then 0
    else
      var t := Books(Charged(w, tx.from, k.Fee(tx)));
      match tx.body
      case StakeDeposit(_, _, _) => 0
      case StakeWithdraw(amount, v) => Staking.WithdrawLoss(t, tx.from, amount, v)
      case StakeClaim => Staking.ClaimLoss(t, tx.from, w.blockHeight)
      case Other(_) => 0
  }

  /** A refused deposit writes a zero stake back: somebody else's delegation outlived the stake. */
  predicate LeavesZeroStake(k: Kernel, w: World, tx: Tx) {
    && k.Reaches(w, tx) && tx.body.StakeDeposit?
    && Staking.LeavesZeroStake(Books(Charged(w, tx.from, k.Fee(tx))), tx.from, tx.body.amount,
                               Staking.Validator(tx.from, tx.body.validator), tx.body.commission)
  }

  // ---------------------------------------------------------------- one transaction

  /** The handler's effect on the supply, accepted or not. */
  lemma DispatchedSupply(k: Kernel, w: World, tx: Tx, i: nat)
    requires k.TokensLawful() && k.Reaches(w, tx)
    ensures var paid := Charged(w, tx.from, k.Fee(tx));
      var (after, events) := k.Dispatched(paid, tx, i);
      && Supply(after) + RefusalLoss(k, w, tx) == Supply(paid)
      && Rewards.KeepsBookings(Books(paid), Books(after))
      && (events.Some? ==> RefusalLoss(k, w, tx) == 0)
  {
    hide Books, Staking.Deposit, Staking.Withdraw, Staking.Claim, Staking.WithdrawLoss, Rewards.Supply;
    var w1 := Charged(w, tx.from, k.Fee(tx));
    var t := Books(w1);
    match tx.body
    case StakeDeposit(amount, v, commission) =>
      DepositBooks(w1, tx.from, amount, v, commission);
    case StakeWithdraw(amount, v) =>
      WithdrawBooks(w1, tx.from, amount, v);
    case StakeClaim =>
      ClaimBooks(w1, tx.from);
    case Other(_) =>
  }

  lemma DepositBooks(w: World, from: Address, amount: nat, validator: Address, commission: nat)
    ensures var o := Staking.Deposit(Books(w), from, amount, validator, commission);
      && Books(Staked(w, o).0) == o.books && Staked(w, o).0.miners == w.miners
      && Supply(Staked(w, o).0) == Supply(w) && Rewards.KeepsBookings(Books(w), o.books)
      && (Staked(w, o).0 == w <==> o.books == Books(w))
  {
    hide Books, Rewards.Supply;
    var o := Staking.Deposit(Books(w), from, amount, validator, commission);
    StakedBooks(w, o);
    UnchangedBooks(w, o);
    Staking.DepositConserves(Books(w), from, amount, validator, commission);
  }

  lemma WithdrawBooks(w: World, from: Address, amount: nat, validator: Address)
    ensures var o := Staking.Withdraw(Books(w), from, amount, validator, w.blockHeight);
      && Books(Staked(w, o).0) == o.books && Staked(w, o).0.miners == w.miners
      && Supply(Staked(w, o).0) + Staking.WithdrawLoss(Books(w), from, amount, validator) == Supply(w)
      && Rewards.KeepsBookings(Books(w), o.books)
      && (Staked(w, o).0 == w <==> o.books == Books(w))
      && (o.ok ==> Staking.WithdrawLoss(Books(w), from, amount, validator) == 0)
  {
    hide Books, Rewards.Supply, Staking.WithdrawsFrom, Staking.Entries;
    var o := Staking.Withdraw(Books(w), from, amount, validator, w.blockHeight);
    StakedBooks(w, o);
    UnchangedBooks(w, o);
    Staking.WithdrawSupply(Books(w), from, amount, validator, w.blockHeight);
  }

  lemma ClaimBooks(w: World, from: Address)
    ensures var o := Staking.Claim(Books(w), from, w.blockHeight);
      && Books(Staked(w, o).0) == o.books && Staked(w, o).0.miners == w.miners
      && Supply(Staked(w, o).0) + Staking.ClaimLoss(Books(w), from, w.blockHeight) == Supply(w)
      && Rewards.KeepsBookings(Books(w), o.books)
      && (Staked(w, o).0 == w <==> o.books == Books(w))
  {
    hide Books, Rewards.Supply;
    var o := Staking.Claim(Books(w), from, w.blockHeight);
    StakedBooks(w, o);
    UnchangedBooks(w, o);
    Staking.ClaimSupply(Books(w), from, w.blockHeight);
  }

  /** The exact effect of a transaction on the supply: the fee of an accepted one, the loss of a refused one. */
  lemma TransactionSupply(k: Kernel, w: World, tx: Tx, i: nat)
    requires k.TokensLawful()
    ensures var (after, receipt) := k.ApplyTx(w, tx, i);
      && Supply(after) + (if receipt == None then RefusalLoss(k, w, tx) else receipt.value.fee) == Supply(w)
      && Rewards.KeepsBookings(Books(w), Books(after))
      && (receipt.Some? ==> receipt.value.fee == k.Fee(tx) && RefusalLoss(k, w, tx) == 0)
  {
    hide Books, Supply, Kernel.Dispatched, Charged, Refunded, Kernel.TokensLawful;
    if k.Reaches(w, tx) {
      var paid := Charged(w, tx.from, k.Fee(tx));
      var (w1, events) := k.Dispatched(paid, tx, i);
      ChargedBooks(w, tx.from, k.Fee(tx));
      DispatchedSupply(k, w, tx, i);
      RefundedBooks(w1, tx.from, k.Fee(tx));
      RecordedBooks(k, w1, tx);
    } else {
      assert RefusalLoss(k, w, tx) == 0;
    }
  }

  lemma RecordedBooks(k: Kernel, w: World, tx: Tx)
    ensures Books(k.Recorded(w, tx)) == Books(w) && Supply(k.Recorded(w, tx)) == Supply(w)
  {
    SameAccounts(w, k.Recorded(w, tx));
  }

  // ---------------------------------------------------------------- accepted and refused

  /** The handler, called on a world whose fee is paid, succeeds. */
  predicate Succeeds(k: Kernel, paid: World, tx: Tx, i: nat) {
    match tx.body
    case StakeDeposit(amount, v, commission) => Staking.Deposit(Books(paid), tx.from, amount, v, commission).ok
    case StakeWithdraw(amount, v) => Staking.Withdraw(Books(paid), tx.from, amount, v, paid.blockHeight).ok
    case StakeClaim => Staking.Claim(Books(paid), tx.from, paid.blockHeight).ok
    case Other(_) => k.handle(paid, tx, i).1.Some?
  }

  /** Three kinds of call are free, everything else costs a million. */
  function Price(k: Kernel, tx: Tx): nat {
    if tx.body.Other? && k.gasFree(tx.body.call) then 0 else 1_000_000
  }

  /** Exactly which transactions are accepted: admitted, next in their sender's order, paid for, and successful. */
  lemma TransactionAcceptedIff(k: Kernel, w: World, tx: Tx, i: nat)
    ensures k.ApplyTx(w, tx, i).1.Some? <==>
      && k.admits(tx) && tx.nonce == Get(w.ledger.nonces, tx.from) + 1
      && Get(w.ledger.balances, tx.from) >= Price(k, tx)
      && Succeeds(k, Charged(w, tx.from, Price(k, tx)), tx, i)
    ensures k.ApplyTx(w, tx, i).1.Some? ==> k.ApplyTx(w, tx, i).1.value.fee == Price(k, tx)
  {
    hide Books, Staking.Deposit, Staking.Withdraw, Staking.Claim;
  }

  /** The sender's books once the fee is paid. */
  function Paid(w: World, tx: Tx): Rewards.Treasury
    requires Get(w.ledger.balances, tx.from) >= 1_000_000
  {
    Books(w).(balances := w.ledger.balances[tx.from := Get(w.ledger.balances, tx.from) - 1_000_000])
  }

  lemma PaidBooks(k: Kernel, w: World, tx: Tx)
    requires k.Reaches(w, tx) && !tx.body.Other?
    ensures var paid := Charged(w, tx.from, k.Fee(tx)); Books(paid) == Paid(w, tx) && paid.blockHeight == w.blockHeight
  {
    BalanceBooks(w, tx.from, Get(w.ledger.balances, tx.from) - 1_000_000);
    hide Books, Supply;
  }

  /** An accepted staking transaction does to the books, once the fee is paid, what its own handler does. */
  lemma StakingTakesEffect(k: Kernel, w: World, tx: Tx, i: nat)
    requires !tx.body.Other? && k.ApplyTx(w, tx, i).1.Some?
    ensures Get(w.ledger.balances, tx.from) >= 1_000_000
    ensures match tx.body
      case StakeDeposit(amount, v, commission) =>
        Staking.Outcome(Books(k.ApplyTx(w, tx, i).0), true) == Staking.Deposit(Paid(w, tx), tx.from, amount, v, commission)
      case StakeWithdraw(amount, v) =>
        Staking.Outcome(Books(k.ApplyTx(w, tx, i).0), true) == Staking.Withdraw(Paid(w, tx), tx.from, amount, v, w.blockHeight)
      case StakeClaim =>
        Staking.Outcome(Books(k.ApplyTx(w, tx, i).0), true) == Staking.Claim(Paid(w, tx), tx.from, w.blockHeight)
      case Other(_) => false
  {
    PaidBooks(k, w, tx);
    hide Books, Supply, Staked, Charged, Kernel.Recorded, Staking.Deposit, Staking.Withdraw, Staking.Claim, Staking.WithdrawLoss;
    var paid := Charged(w, tx.from, k.Fee(tx));
    RecordedBooks(k, k.Dispatched(paid, tx, i).0, tx);
    match tx.body
    case StakeDeposit(amount, v, commission) =>
      DepositBooks(paid, tx.from, amount, v, commission);
      StakedSucceeds(paid, Staking.Deposit(Books(paid), tx.from, amount, v, commission));
    case StakeWithdraw(amount, v) =>
      WithdrawBooks(paid, tx.from, amount, v);
      StakedSucceeds(paid, Staking.Withdraw(Books(paid), tx.from, amount, v, w.blockHeight));
    case StakeClaim =>
      ClaimBooks(paid, tx.from);
      StakedSucceeds(paid, Staking.Claim(Books(paid), tx.from, w.blockHeight));
  }

  /** Beyond the books a staking transaction touches nothing but, when it is accepted, the sender's nonce and statistics. */
  lemma StakingTouches(k: Kernel, w: World, tx: Tx, i: nat)
    requires !tx.body.Other?
    ensures var (after, receipt) := k.ApplyTx(w, tx, i);
      after == w.(stakes := after.stakes, ledger := w.ledger.(
        balances := after.ledger.balances, unbonding := after.ledger.unbonding,
        delegations := after.ledger.delegations, commissions := after.ledger.commissions,
        nonces := if receipt.Some? then w.ledger.nonces[tx.from := tx.nonce] else w.ledger.nonces,
        registry := if receipt.Some? then k.record(w.ledger.registry, tx) else w.ledger.registry))
  {
    hide Books, Staking.Deposit, Staking.Withdraw, Staking.Claim;
  }

  lemma RefundOnly(w: World, from: Address, fee: nat, v: World, a: Address)
    requires fee <= Get(w.ledger.balances, from) && v.ledger.balances == Charged(w, from, fee).ledger.balances
    ensures Get(Refunded(v, from, fee).ledger.balances, a) == Get(w.ledger.balances, a)
  {
  }

  lemma StakedBalances(w: World, o: Staking.Outcome)
    requires o.ok || o.books.balances == Books(w).balances
    ensures Staked(w, o).1 == None ==> Staked(w, o).0.ledger.balances == w.ledger.balances
  {
  }

  lemma RefusedBalances(k: Kernel, w: World, tx: Tx, i: nat)
    requires !tx.body.Other? && k.Dispatched(w, tx, i).1 == None
    ensures k.Dispatched(w, tx, i).0.ledger.balances == w.ledger.balances
  {
    hide Books, Staked, Staking.Deposit, Staking.Withdraw, Staking.Claim;
    var t := Books(w);
    match tx.body
    case StakeDeposit(amount, v, commission) =>
      Staking.RefusalKeepsBalances(t, tx.from, amount, v, commission, 0);
      StakedBalances(w, Staking.Deposit(t, tx.from, amount, v, commission));
    case StakeWithdraw(amount, v) =>
      Staking.RefusalKeepsBalances(t, tx.from, amount, v, 0, w.blockHeight);
      StakedBalances(w, Staking.Withdraw(t, tx.from, amount, v, w.blockHeight));
    case StakeClaim =>
      Staking.RefusalKeepsBalances(t, tx.from, 0, 0, 0, w.blockHeight);
      StakedBalances(w, Staking.Claim(t, tx.from, w.blockHeight));
  }

  /** Every balance after a staking transaction: the sender pays fee and deposit and receives its mature entries, nobody else
    * pays or receives anything, and a refused transaction moves nothing. */
  lemma StakingBalances(k: Kernel, w: World, tx: Tx, i: nat, a: Address)
    requires !tx.body.Other?
    ensures var (after, receipt) := k.ApplyTx(w, tx, i);
      if receipt.Some? && a == tx.from then
        && Get(after.ledger.balances, a) + 1_000_000 + (if tx.body.StakeDeposit? then tx.body.amount else 0)
           == Get(w.ledger.balances, a)
              + if tx.body.StakeClaim? then Sum(Rewards.Amounts(Staking.Matured(w.ledger.unbonding, a, w.blockHeight))) else 0
      else Get(after.ledger.balances, a) == Get(w.ledger.balances, a)
  {
    hide Kernel.Dispatched, Charged, Refunded, Kernel.Recorded, Staking.Deposit, Staking.Withdraw, Staking.Claim, Staking.Matured,
      Rewards.Amounts, Sum;
    var (after, receipt) := k.ApplyTx(w, tx, i);
    if receipt.Some? {
      StakingTakesEffect(k, w, tx, i);
      var t := Paid(w, tx);
      match tx.body
      case StakeDeposit(amount, v, commission) => Staking.DepositMeaning(t, tx.from, amount, v, commission, a);
      case StakeWithdraw(amount, v) => Staking.WithdrawMeaning(t, tx.from, amount, v, w.blockHeight);
      case StakeClaim => Staking.ClaimMeaning(t, tx.from, w.blockHeight, a, Rewards.Unbonding(0, 1, 0));
    } else if k.Reaches(w, tx) {
      RefusedBalances(k, Charged(w, tx.from, k.Fee(tx)), tx, i);
      RefundOnly(w, tx.from, k.Fee(tx), k.Dispatched(Charged(w, tx.from, k.Fee(tx)), tx, i).0, a);
    }
  }

  /** Any other transaction runs on the state with its price taken from the sender; refused, the sender gets the price back and
    * whatever the handler did stays. */
  lemma OtherTakesEffect(k: Kernel, w: World, tx: Tx, i: nat)
    requires tx.body.Other? && Get(w.ledger.balances, tx.from) >= Price(k, tx)
    requires k.admits(tx) && tx.nonce == Get(w.ledger.nonces, tx.from) + 1
    ensures var price, (after, receipt) := Price(k, tx), k.ApplyTx(w, tx, i);
      var paid := if price == 0 then w else WithBalance(w, tx.from, Get(w.ledger.balances, tx.from) - price);
      var (handled, events) := k.handle(paid, tx, i);
      if events.Some? then
        && receipt == Some(Receipt(price, events.value))
        && after == handled.(ledger := handled.ledger.(nonces := handled.ledger.nonces[tx.from := tx.nonce],
                                                       registry := k.record(handled.ledger.registry, tx)))
      else
        && receipt == None
        && after == if price == 0 then handled else WithBalance(handled, tx.from, Get(handled.ledger.balances, tx.from) + price)
  {
    var paid := Charged(w, tx.from, k.Fee(tx));
    assert k.Dispatched(paid, tx, i) == k.handle(paid, tx, i);
    match k.handle(paid, tx, i).1
    case None =>
    case Some(_) =>
  }

  /** Neither the state after a transaction, nor its success, nor its fee depends on its index. */
  lemma IndexDoesNotMatter(k: Kernel, w: World, tx: Tx, i: nat, j: nat)
    requires k.IndexLawful()
    ensures k.ApplyTx(w, tx, i).0 == k.ApplyTx(w, tx, j).0
    ensures k.ApplyTx(w, tx, i).1 == None <==> k.ApplyTx(w, tx, j).1 == None
    ensures k.ApplyTx(w, tx, i).1.Some? ==> k.ApplyTx(w, tx, i).1.value.fee == k.ApplyTx(w, tx, j).1.value.fee == k.Fee(tx)
  {
    hide Books, Staked, Charged, Refunded, Kernel.Recorded;
    if k.Reaches(w, tx) {
      var paid := Charged(w, tx.from, k.Fee(tx));
      assert k.handle(paid, tx, i).0 == k.handle(paid, tx, j).0;
    }
  }

  lemma RefundIsInjective(v: World, w: World, a: Address, fee: nat)
    requires v.ledger.balances == w.ledger.balances
    ensures Refunded(v, a, fee) == Refunded(w, a, fee) <==> v == w
  {
  }

  /** A staking handler that refuses leaves the world as it was exactly when it leaves its books so. */
  lemma RefusedStaking(k: Kernel, w: World, tx: Tx, i: nat, o: Staking.Outcome)
    requires k.Reaches(w, tx) && k.ApplyTx(w, tx, i).1 == None
    requires var paid := Charged(w, tx.from, k.Fee(tx));
      && k.Dispatched(paid, tx, i) == Staked(paid, o)
      && (o.books.balances == paid.ledger.balances) && (Staked(paid, o).0 == paid <==> o.books == Books(paid))
    ensures k.ApplyTx(w, tx, i).0 == w <==> o.books == Books(Charged(w, tx.from, k.Fee(tx)))
  {
    hide Books, Charged, Refunded, Kernel.Dispatched;
    var paid := Charged(w, tx.from, k.Fee(tx));
    RefundUndoesCharge(w, tx.from, k.Fee(tx));
    RefundIsInjective(Staked(paid, o).0, paid, tx.from, k.Fee(tx));
  }

  /** When exactly a refused staking transaction leaves the state as it was. Everything the condition names can be read
    * off the state before the transaction. */
  lemma FailsCleanlyIff(k: Kernel, w: World, tx: Tx, i: nat)
    requires !tx.body.Other? && k.ApplyTx(w, tx, i).1 == None
    ensures k.ApplyTx(w, tx, i).0 == w <==> RefusalLoss(k, w, tx) == 0 && !LeavesZeroStake(k, w, tx)
  {
    hide Supply, Staking.Deposit, Staking.Withdraw, Staking.Claim, Staking.WithdrawLoss, Staking.LeavesZeroStake,
      Charged, Refunded, Staked;
    if k.Reaches(w, tx) {
      var paid := Charged(w, tx.from, k.Fee(tx));
      var t := Books(paid);
      assert t.balances == paid.ledger.balances && paid.blockHeight == w.blockHeight by { ChargedFields(w, tx.from, k.Fee(tx)); }
      hide Books;
      match tx.body
      case StakeDeposit(amount, v, commission) =>
        var o := Staking.Deposit(t, tx.from, amount, v, commission);
        DepositBooks(paid, tx.from, amount, v, commission);
        StakedSucceeds(paid, o);
        Staking.RefusalKeepsBalances(t, tx.from, amount, v, commission, w.blockHeight);
        RefusedStaking(k, w, tx, i, o);
        Staking.DepositFailsCleanlyIff(t, tx.from, amount, v, commission);
      case StakeWithdraw(amount, v) =>
        var o := Staking.Withdraw(t, tx.from, amount, v, w.blockHeight);
        WithdrawBooks(paid, tx.from, amount, v);
        StakedSucceeds(paid, o);
        Staking.RefusalKeepsBalances(t, tx.from, amount, v, 0, w.blockHeight);
        RefusedStaking(k, w, tx, i, o);
        Staking.WithdrawFailsCleanlyIff(t, tx.from, amount, v, w.blockHeight);
      case StakeClaim =>
        var o := Staking.Claim(t, tx.from, w.blockHeight);
        ClaimBooks(paid, tx.from);
        StakedSucceeds(paid, o);
        Staking.RefusalKeepsBalances(t, tx.from, 0, 0, 0, w.blockHeight);
        RefusedStaking(k, w, tx, i, o);
        Staking.ClaimFailsCleanlyIff(t, tx.from, w.blockHeight);
        Staking.QueueWeighs(t.unbonding);
    }
  }

  lemma ChargedFields(w: World, a: Address, fee: nat)
    requires fee <= Get(w.ledger.balances, a)
    ensures Charged(w, a, fee).blockHeight == w.blockHeight
  {
  }

  lemma StakedSucceeds(w: World, o: Staking.Outcome)
    ensures Staked(w, o).1.Some? <==> o.ok
  {
  }

  // ---------------------------------------------------------------- delegations

  lemma BackingKept(w: World, v: World)
    requires v.stakes == w.stakes && v.ledger.delegations == w.ledger.delegations
    ensures Staking.Backed(Books(v)) <==> Staking.Backed(Books(w))
  {
    var t, u := Books(w), Books(v);
    assert t.stakes == u.stakes && t.delegations == u.delegations;
    hide Books, Accounts;
  }

  lemma ChargeStaysBacked(w: World, a: Address, fee: nat)
    requires fee <= Get(w.ledger.balances, a)
    ensures Staking.Backed(Books(Charged(w, a, fee))) <==> Staking.Backed(Books(w))
  {
    hide Books, Staking.Backed;
    BackingKept(w, Charged(w, a, fee));
  }

  lemma RefundStaysBacked(w: World, a: Address, fee: nat)
    ensures Staking.Backed(Books(Refunded(w, a, fee))) <==> Staking.Backed(Books(w))
  {
    hide Books, Staking.Backed;
    BackingKept(w, Refunded(w, a, fee));
  }

  lemma DispatchStaysBacked(k: Kernel, w: World, tx: Tx, i: nat)
    requires k.TokensLawful() && Staking.Backed(Books(w))
    ensures Staking.Backed(Books(k.Dispatched(w, tx, i).0))
  {
    hide Books, Supply, Staked, Staking.Backed, Staking.Deposit, Staking.Withdraw, Staking.Claim, Staking.WithdrawLoss;
    match tx.body
    case StakeDeposit(amount, v, commission) =>
      DepositBooks(w, tx.from, amount, v, commission);
      Staking.DepositStaysBacked(Books(w), tx.from, amount, v, commission);
    case StakeWithdraw(amount, v) =>
      WithdrawBooks(w, tx.from, amount, v);
      Staking.WithdrawStaysBacked(Books(w), tx.from, amount, v, w.blockHeight);
    case StakeClaim =>
      ClaimBooks(w, tx.from);
      Staking.ClaimStaysBacked(Books(w), tx.from, w.blockHeight);
    case Other(_) =>
  }

  /** Accepted or refused, a transaction leaves every delegation backed. */
  lemma TransactionStaysBacked(k: Kernel, w: World, tx: Tx, i: nat)
    requires k.TokensLawful() && Staking.Backed(Books(w))
    ensures Staking.Backed(Books(k.ApplyTx(w, tx, i).0))
  {
    hide Books, Kernel.Dispatched, Kernel.TokensLawful, Charged, Refunded, Staking.Backed, Kernel.Recorded;
    if k.Reaches(w, tx) {
      var paid := Charged(w, tx.from, k.Fee(tx));
      var after := k.Dispatched(paid, tx, i).0;
      ChargeStaysBacked(w, tx.from, k.Fee(tx));
      DispatchStaysBacked(k, paid, tx, i);
      RefundStaysBacked(after, tx.from, k.Fee(tx));
      RecordedBooks(k, after, tx);
    }
  }

  /** With delegations backed, a refused staking transaction leaves no trace unless it loses tokens. */
  lemma BackedFailsCleanlyIff(k: Kernel, w: World, tx: Tx, i: nat)
    requires !tx.body.Other? && k.ApplyTx(w, tx, i).1 == None && Staking.Backed(Books(w))
    ensures k.ApplyTx(w, tx, i).0 == w <==> RefusalLoss(k, w, tx) == 0
  {
    hide Books, Kernel.ApplyTx, RefusalLoss, Charged, Staking.Backed, Staking.LeavesZeroStake;
    FailsCleanlyIff(k, w, tx, i);
    if k.Reaches(w, tx) && tx.body.StakeDeposit? {
      var fee := k.Fee(tx);
      ChargeStaysBacked(w, tx.from, fee);
      Staking.BackedDepositFailsCleanly(Books(Charged(w, tx.from, fee)), tx.from, tx.body.amount, tx.body.validator, tx.body.commission);
    }
  }

  // ---------------------------------------------------------------- check-ins

  lemma DispatchKeepsCheckins(k: Kernel, w: World, tx: Tx, i: nat)
    requires k.CheckinsLawful()
    ensures KeepsCheckins(w, k.Dispatched(w, tx, i).0)
  {
    hide Books, Staking.Deposit, Staking.Withdraw, Staking.Claim, KeepsCheckins;
    if !tx.body.Other? { SameMiners(w, k.Dispatched(w, tx, i).0); }
  }

  lemma TransactionKeepsCheckins(k: Kernel, w: World, tx: Tx, i: nat)
    requires k.CheckinsLawful()
    ensures KeepsCheckins(w, k.ApplyTx(w, tx, i).0)
  {
    hide Books, Supply, Kernel.Dispatched, Kernel.CheckinsLawful, Charged, Refunded, KeepsCheckins;
    if k.Reaches(w, tx) {
      var paid := Charged(w, tx.from, k.Fee(tx));
      var after := k.Dispatched(paid, tx, i).0;
      ChargedBooks(w, tx.from, k.Fee(tx));
      RefundedBooks(after, tx.from, k.Fee(tx));
      DispatchKeepsCheckins(k, paid, tx, i);
      SameCheckinsBothEnds(w, paid, after, k.ApplyTx(w, tx, i).0);
    } else {
      SameMiners(w, w);
    }
  }

  lemma SameMiners(a: World, b: World)
    requires a.miners == b.miners
    ensures KeepsCheckins(a, b)
  {
  }

  lemma SameCheckinsBothEnds(a: World, b: World, c: World, d: World)
    requires a.miners == b.miners && KeepsCheckins(b, c) && c.miners == d.miners
    ensures KeepsCheckins(a, d)
  {
  }
}
