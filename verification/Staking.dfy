/** Staking transactions: deposit, withdrawal and claim, and what a refused one leaves behind. */
module Staking {
  import opened Common
  import opened ConsensusTypes
  import opened Rewards

  const MAX_UNBONDING: nat := 100
  const UNBONDING_PERIOD: nat := 201_600

  datatype Outcome = Outcome(books: Treasury, ok: bool)

  // ---------------------------------------------------------------- the three handlers

  /** The zero address stands for the sender. */
  function Validator(from: Address, validator: Address): Address {
    if validator == 0 then from else validator
  }

  /** The checks of a deposit before anything changes. */
  predicate MayDeposit(t: Treasury, from: Address, amount: nat, v: Address, commission: nat) {
    && amount > 0 && commission <= 10_000 && Get(t.balances, from) >= amount
    && Get(t.stakes, v) + amount < U128_LIMIT
    && (Get(t.stakes, v) == 0 ==> amount >= MIN_STAKE)
  }

  /** Somebody else owns the delegation of this validator. */
  predicate ForeignOwner(t: Treasury, from: Address, v: Address) {
    v in t.delegations && t.delegations[v] != from && from != v
  }

  /** Stake moves from the sender's balance to the validator. Against a foreign owner it moves back, but the
    * validator's entry is written back even if there was none. */
  function Deposit(t: Treasury, from: Address, amount: nat, validator: Address, commission: nat): Outcome {
    var v := Validator(from, validator);
    if !MayDeposit(t, from, amount, v, commission) then Outcome(t, false)
    else if ForeignOwner(t, from, v) then Outcome(t.(stakes := t.stakes[v := Get(t.stakes, v)]), false)
    else
      Outcome(t.(balances := t.balances[from := Get(t.balances, from) - amount],
                 stakes := t.stakes[v := Get(t.stakes, v) + amount],
                 delegations := if v in t.delegations then t.delegations else t.delegations[v := from],
                 commissions := t.commissions[v := commission]), true)
  }

  function DelegatedBy(t: Treasury, from: Address): set<Address> {
    set v | v in t.delegations && t.delegations[v] == from
  }

  /** Whose stake a withdrawal lowers: the named validator's if the sender may, else the sender's own, else that of
    * the first validator delegated to it. */
  function WithdrawsFrom(t: Treasury, from: Address, validator: Address): Option<Address> {
    if validator != 0 then
      if validator == from || (validator in t.delegations && t.delegations[validator] == from) then Some(validator) else None
    else if Get(t.stakes, from) > 0 then Some(from)
    else if DelegatedBy(t, from) == {} then None
    else Some(LeastOf(DelegatedBy(t, from)))
  }

  /** The checks of a withdrawal before anything changes: what stays is nothing or at least the minimum. */
  predicate MayWithdraw(t: Treasury, amount: nat, v: Address) {
    0 < amount <= Get(t.stakes, v) && !(0 < Get(t.stakes, v) - amount < MIN_STAKE)
  }

  function Lowered(t: Treasury, amount: nat, v: Address): Treasury
    requires amount <= Get(t.stakes, v)
  {
    if amount == Get(t.stakes, v)
    then t.(stakes := t.stakes - {v}, delegations := t.delegations - {v}, commissions := t.commissions - {v})
    else t.(stakes := t.stakes[v := Get(t.stakes, v) - amount])
  }

  function Entries(queue: seq<Unbonding>, a: Address): nat {
    if queue == [] then 0 else (if queue[0].owner == a then 1 else 0) + Entries(queue[1..], a)
  }

  /** Stake moves from the validator to the unbonding queue. The limit on the validator's entries is checked last,
    * when the stake is already lowered. */
  function Withdraw(t: Treasury, from: Address, amount: nat, validator: Address, height: nat): Outcome {
    match WithdrawsFrom(t, from, validator)
    case None => Outcome(t, false)
    case Some(v) =>
      if !MayWithdraw(t, amount, v) then Outcome(t, false)
      else if Entries(t.unbonding, v) >= MAX_UNBONDING then Outcome(Lowered(t, amount, v), false)
      else
        Outcome(Lowered(t, amount, v).(unbonding := t.unbonding + [Unbonding(from, amount, height + UNBONDING_PERIOD)]), true)
  }

  predicate Mature(e: Unbonding, from: Address, height: nat) {
    e.owner == from && e.release <= height
  }

  function Matured(queue: seq<Unbonding>, from: Address, height: nat): seq<Unbonding> {
    if queue == [] then []
    else (if Mature(queue[0], from, height) then [queue[0]] else []) + Matured(queue[1..], from, height)
  }

  function Unmatured(queue: seq<Unbonding>, from: Address, height: nat): seq<Unbonding> {
    if queue == [] then []
    else (if Mature(queue[0], from, height) then [] else [queue[0]]) + Unmatured(queue[1..], from, height)
  }

  /** The sender's mature entries become balance. The queue is taken out first, and not put back if the claim fails. */
  function Claim(t: Treasury, from: Address, height: nat): Outcome {
    var total := Sum(Amounts(Matured(t.unbonding, from, height)));
    if total == 0 || total >= U128_LIMIT then Outcome(t.(unbonding := []), false)
    else
      Outcome(t.(balances := t.balances[from := Get(t.balances, from) + total],
                 unbonding := Unmatured(t.unbonding, from, height)), true)
  }

  // ---------------------------------------------------------------- deposits

  /** A refused deposit leaves a zero stake behind: a foreign owner outlived the stake. */
  predicate LeavesZeroStake(t: Treasury, from: Address, amount: nat, v: Address, commission: nat) {
    MayDeposit(t, from, amount, v, commission) && ForeignOwner(t, from, v) && v !in t.stakes
  }

  /** A deposit only moves tokens. */
  lemma DepositConserves(t: Treasury, from: Address, amount: nat, validator: Address, commission: nat)
    ensures Supply(Deposit(t, from, amount, validator, commission).books) == Supply(t)
  {
    var v := Validator(from, validator);
    if MayDeposit(t, from, amount, v, commission) {
      TotalUpdate(t.balances, from, Get(t.balances, from) - amount);
      TotalBounds(t.balances, from);
      TotalUpdate(t.stakes, v, Get(t.stakes, v) + amount);
      TotalUpdate(t.stakes, v, Get(t.stakes, v));
    }
  }

  /** A refused deposit leaves no trace unless somebody else's delegation of a validator without stake stands in its way. */
  lemma DepositFailsCleanlyIff(t: Treasury, from: Address, amount: nat, validator: Address, commission: nat)
    requires !Deposit(t, from, amount, validator, commission).ok
    ensures Deposit(t, from, amount, validator, commission).books == t
       <==> !LeavesZeroStake(t, from, amount, Validator(from, validator), commission)
  {
    var v := Validator(from, validator);
    if MayDeposit(t, from, amount, v, commission) {
      var after := t.stakes[v := Get(t.stakes, v)];
      assert v in after;
      assert v in t.stakes ==> after == t.stakes;
    }
  }

  // ---------------------------------------------------------------- withdrawals

  /** What a refused withdrawal takes out of circulation: the amount, if only the limit on entries stopped it. */
  function WithdrawLoss(t: Treasury, from: Address, amount: nat, validator: Address): nat {
    match WithdrawsFrom(t, from, validator)
    case None => 0
    case Some(v) => if MayWithdraw(t, amount, v) && Entries(t.unbonding, v) >= MAX_UNBONDING then amount else 0
  }

  lemma LoweredTakes(t: Treasury, amount: nat, v: Address)
    requires 0 < amount <= Get(t.stakes, v)
    ensures Total(Lowered(t, amount, v).stakes) + amount == Total(t.stakes)
  {
    if amount == Get(t.stakes, v) {
      TotalTakeOut(t.stakes, v);
    } else {
      TotalUpdate(t.stakes, v, Get(t.stakes, v) - amount);
    }
  }

  lemma {:induction false} OneMoreEntry(queue: seq<Unbonding>, e: Unbonding)
    ensures Sum(Amounts(queue + [e])) == Sum(Amounts(queue)) + e.amount
  {
    if queue == [] {
      assert queue + [e] == [e] && Amounts([e])[1..] == [];
    } else {
      assert (queue + [e])[1..] == queue[1..] + [e];
      OneMoreEntry(queue[1..], e);
    }
  }

  /** The exact effect of a withdrawal on the supply. */
  lemma WithdrawSupply(t: Treasury, from: Address, amount: nat, validator: Address, height: nat)
    ensures Supply(Withdraw(t, from, amount, validator, height).books) + WithdrawLoss(t, from, amount, validator) == Supply(t)
  {
    hide WithdrawsFrom, Entries, Amounts, Sum;
    var target := WithdrawsFrom(t, from, validator);
    if target.Some? && MayWithdraw(t, amount, target.value) {
      LoweredTakes(t, amount, target.value);
      OneMoreEntry(t.unbonding, Unbonding(from, amount, height + UNBONDING_PERIOD));
    }
  }

  /** A refused withdrawal leaves no trace unless the queue already holds 100 entries of the validator's address. */
  lemma WithdrawFailsCleanlyIff(t: Treasury, from: Address, amount: nat, validator: Address, height: nat)
    requires !Withdraw(t, from, amount, validator, height).ok
    ensures Withdraw(t, from, amount, validator, height).books == t <==> WithdrawLoss(t, from, amount, validator) == 0
  {
    WithdrawSupply(t, from, amount, validator, height);
    hide Supply, WithdrawsFrom;
  }

  // ---------------------------------------------------------------- claims

  lemma EmptyQueue()
    ensures Sum(Amounts([])) == 0
  {
  }

  lemma FirstEntry(e: Unbonding, queue: seq<Unbonding>)
    ensures Sum(Amounts([e] + queue)) == e.amount + Sum(Amounts(queue))
  {
    assert ([e] + queue)[1..] == queue;
  }

  lemma {:induction false} QueueSplits(queue: seq<Unbonding>, from: Address, height: nat)
    ensures Sum(Amounts(Matured(queue, from, height))) + Sum(Amounts(Unmatured(queue, from, height))) == Sum(Amounts(queue))
  {
    hide Sum, Amounts;
    EmptyQueue();
    if queue != [] {
      var m, u := Matured(queue[1..], from, height), Unmatured(queue[1..], from, height);
      QueueSplits(queue[1..], from, height);
      assert [queue[0]] + queue[1..] == queue;
      FirstEntry(queue[0], queue[1..]);
      if Mature(queue[0], from, height) {
        FirstEntry(queue[0], m);
        assert Unmatured(queue, from, height) == u;
      } else {
        FirstEntry(queue[0], u);
        assert Matured(queue, from, height) == m;
      }
    }
  }

  lemma QueueWeighs(queue: seq<Unbonding>)
    ensures Sum(Amounts(queue)) == 0 <==> queue == []
  {
  }

  /** What a refused claim takes out of circulation: every entry of the queue, whoever owns it. */
  function ClaimLoss(t: Treasury, from: Address, height: nat): nat {
    if Claim(t, from, height).ok then 0 else Sum(Amounts(t.unbonding))
  }

  /** The exact effect of a claim on the supply. */
  lemma ClaimSupply(t: Treasury, from: Address, height: nat)
    ensures Supply(Claim(t, from, height).books) + ClaimLoss(t, from, height) == Supply(t)
  {
    hide Matured, Unmatured, Sum;
    EmptyQueue();
    var total := Sum(Amounts(Matured(t.unbonding, from, height)));
    QueueSplits(t.unbonding, from, height);
    TotalUpdate(t.balances, from, Get(t.balances, from) + total);
  }

  /** A claim succeeds exactly when something of the sender's is mature and it all fits in 128 bits; a refused one leaves
    * no trace exactly when the queue was empty. */
  lemma ClaimFailsCleanlyIff(t: Treasury, from: Address, height: nat)
    ensures Claim(t, from, height).ok <==>
      && (exists i :: 0 <= i < |t.unbonding| && Mature(t.unbonding[i], from, height))
      && Sum(Amounts(Matured(t.unbonding, from, height))) < U128_LIMIT
    ensures !Claim(t, from, height).ok ==> (Claim(t, from, height).books == t <==> t.unbonding == [])
  {
    QueueWeighs(Matured(t.unbonding, from, height));
    NothingMaturedIff(t.unbonding, from, height);
  }

  lemma {:induction false} NothingMaturedIff(queue: seq<Unbonding>, from: Address, height: nat)
    ensures Matured(queue, from, height) != [] <==> exists i :: 0 <= i < |queue| && Mature(queue[i], from, height)
  {
    if queue != [] {
      NothingMaturedIff(queue[1..], from, height);
      assert forall i :: 0 < i < |queue| ==> queue[i] == queue[1..][i - 1];
      if exists i :: 0 <= i < |queue[1..]| && Mature(queue[1..][i], from, height) {
        var i :| 0 <= i < |queue[1..]| && Mature(queue[1..][i], from, height);
        assert Mature(queue[i + 1], from, height);
      }
    }
  }

  /** Whatever else a refusal leaves changed, balances are as before. */
  lemma RefusalKeepsBalances(t: Treasury, from: Address, amount: nat, validator: Address, commission: nat, height: nat)
    ensures var o := Deposit(t, from, amount, validator, commission); !o.ok ==> o.books.balances == t.balances
    ensures var o := Withdraw(t, from, amount, validator, height); !o.ok ==> o.books.balances == t.balances
    ensures var o := Claim(t, from, height); !o.ok ==> o.books.balances == t.balances
  {
  }

  // ---------------------------------------------------------------- delegations

  /** Every delegation is of a validator with stake. */
  ghost predicate Backed(t: Treasury) {
    forall v :: v in t.delegations ==> Get(t.stakes, v) > 0
  }

  /** With delegations backed, no refused deposit leaves a trace. */
  lemma BackedDepositFailsCleanly(t: Treasury, from: Address, amount: nat, validator: Address, commission: nat)
    requires Backed(t)
    ensures !LeavesZeroStake(t, from, amount, Validator(from, validator), commission)
    ensures var o := Deposit(t, from, amount, validator, commission); !o.ok ==> o.books == t
  {
    if !Deposit(t, from, amount, validator, commission).ok {
      DepositFailsCleanlyIff(t, from, amount, validator, commission);
    }
  }

  /** A deposit backs the delegation it adds. */
  lemma DepositStaysBacked(t: Treasury, from: Address, amount: nat, validator: Address, commission: nat)
    requires Backed(t)
    ensures Backed(Deposit(t, from, amount, validator, commission).books)
  {
  }

  /** A withdrawal that takes all of a validator's stake ends its delegation, even if the limit on entries then stops it. */
  lemma WithdrawStaysBacked(t: Treasury, from: Address, amount: nat, validator: Address, height: nat)
    requires Backed(t)
    ensures Backed(Withdraw(t, from, amount, validator, height).books)
  {
    hide WithdrawsFrom, Entries;
  }

  lemma ClaimStaysBacked(t: Treasury, from: Address, height: nat)
    requires Backed(t)
    ensures Backed(Claim(t, from, height).books)
  {
  }

  // ---------------------------------------------------------------- whose tokens move

  /** What `a` pays or gets when `who` pays or gets the amount. */
  function Share(a: Address, who: Address, amount: nat): nat {
    if a == who then amount else 0
  }

  /** Exactly which deposits succeed, and all they do: the sender's balance becomes the validator's stake, the first depositor
    * owns the delegation, and the commission is set. */
  lemma DepositMeaning(t: Treasury, from: Address, amount: nat, validator: Address, commission: nat, a: Address)
    ensures var o, v := Deposit(t, from, amount, validator, commission), if validator == 0 then from else validator;
      && (o.ok <==>
            && 0 < amount <= Get(t.balances, from) && commission <= 10_000
            && Get(t.stakes, v) + amount < 0x1_0000_0000_0000_0000_0000_0000_0000_0000
            && (Get(t.stakes, v) > 0 || amount >= 10_000_000_000_000)
            && (v !in t.delegations || t.delegations[v] == from || v == from))
      && Get(o.books.balances, a) + (if o.ok then Share(a, from, amount) else 0) == Get(t.balances, a)
      && Get(o.books.stakes, a) == Get(t.stakes, a) + (if o.ok then Share(a, v, amount) else 0)
      && o.books.delegations == (if o.ok && v !in t.delegations then t.delegations[v := from] else t.delegations)
      && o.books.commissions == (if o.ok then t.commissions[v := commission] else t.commissions)
      && o.books.unbonding == t.unbonding
  {
  }

  /** Stake the sender may withdraw: its own, and that of validators delegated to it. */
  predicate Controls(t: Treasury, from: Address, v: Address) {
    v == from || (v in t.delegations && t.delegations[v] == from)
  }

  /** The validator a withdrawal concerns. Without a name it is the sender while that has stake, then the first one delegated
    * to it. */
  ghost predicate Concerns(t: Treasury, from: Address, validator: Address, v: Address) {
    && Controls(t, from, v)
    && if validator != 0 then v == validator
       else if Get(t.stakes, from) > 0 then v == from
       else v in t.delegations && t.delegations[v] == from && forall u :: u in t.delegations && t.delegations[u] == from ==> v <= u
  }

  lemma ConcernsIff(t: Treasury, from: Address, validator: Address, v: Address)
    ensures WithdrawsFrom(t, from, validator) == Some(v) <==> Concerns(t, from, validator, v)
  {
    var delegated := DelegatedBy(t, from);
    assert forall u :: u in delegated <==> u in t.delegations && t.delegations[u] == from;
    assert v in t.delegations && t.delegations[v] == from ==> v in delegated;
  }

  /** What a withdrawal must meet at the validator it concerns. */
  ghost predicate Withdrawable(t: Treasury, from: Address, amount: nat, validator: Address, v: Address) {
    && Concerns(t, from, validator, v) && 0 < amount <= Get(t.stakes, v)
    && (amount == Get(t.stakes, v) || amount + 10_000_000_000_000 <= Get(t.stakes, v))
    && Entries(t.unbonding, v) < 100
  }

  lemma {:induction false} OneMoreCounts(queue: seq<Unbonding>, e: Unbonding, a: Address)
    ensures Entries(queue + [e], a) == Entries(queue, a) + if e.owner == a then 1 else 0
  {
    if queue == [] {
      assert (queue + [e])[1..] == [];
    } else {
      assert (queue + [e])[1..] == queue[1..] + [e];
      OneMoreCounts(queue[1..], e, a);
    }
  }

  /** The limit counts the entries that pay the validator's address, not the sender's. */
  lemma {:induction false} EntriesMeaning(queue: seq<Unbonding>, a: Address)
    ensures Entries(queue, a) == |set i | 0 <= i < |queue| && queue[i].owner == a|
  {
    if queue != [] {
      var n := |queue| - 1;
      var others := set i | 0 <= i < n && queue[..n][i].owner == a;
      OneMoreCounts(queue[..n], queue[n], a);
      EntriesMeaning(queue[..n], a);
      assert queue[..n] + [queue[n]] == queue;
      assert (set i | 0 <= i < |queue| && queue[i].owner == a) == others + if queue[n].owner == a then {n} else {};
    }
  }

  /** Exactly which withdrawals succeed, and all they do: one stake under the sender's control falls by the amount, and the
    * queue gains one entry that pays the sender 201600 blocks later. */
  lemma WithdrawMeaning(t: Treasury, from: Address, amount: nat, validator: Address, height: nat)
    ensures Withdraw(t, from, amount, validator, height).ok <==> exists v :: Withdrawable(t, from, amount, validator, v)
    ensures var o := Withdraw(t, from, amount, validator, height);
      o.ok ==> exists v ::
        && Withdrawable(t, from, amount, validator, v)
        && (forall a :: Get(o.books.stakes, a) + Share(a, v, amount) == Get(t.stakes, a))
        && o.books.unbonding == t.unbonding + [Unbonding(from, amount, height + 201_600)]
        && (amount < Get(t.stakes, v) ==> o.books.delegations == t.delegations && o.books.commissions == t.commissions)
        && (amount == Get(t.stakes, v) ==> o.books.delegations == t.delegations - {v} && o.books.commissions == t.commissions - {v})
    ensures Withdraw(t, from, amount, validator, height).books.balances == t.balances
  {
    forall v: Address
      ensures Concerns(t, from, validator, v) <==> WithdrawsFrom(t, from, validator) == Some(v)
    {
      ConcernsIff(t, from, validator, v);
    }
    hide WithdrawsFrom, Concerns, Entries, Lowered;
    var o := Withdraw(t, from, amount, validator, height);
    var target := WithdrawsFrom(t, from, validator);
    if target.Some? && MayWithdraw(t, amount, target.value) {
      LoweredMeaning(t, amount, target.value);
      assert o.ok ==> Withdrawable(t, from, amount, validator, target.value);
    }
  }

  lemma LoweredMeaning(t: Treasury, amount: nat, v: Address)
    requires amount <= Get(t.stakes, v)
    ensures var u := Lowered(t, amount, v);
      && (forall a :: Get(u.stakes, a) + Share(a, v, amount) == Get(t.stakes, a))
      && u == t.(stakes := u.stakes, delegations := u.delegations, commissions := u.commissions)
      && (amount < Get(t.stakes, v) ==> u.delegations == t.delegations && u.commissions == t.commissions)
      && (amount == Get(t.stakes, v) ==> u.delegations == t.delegations - {v} && u.commissions == t.commissions - {v})
  {
  }

  /** Whether it succeeds or not, a withdrawal leaves every stake, delegation and commission alone that the sender does not
    * control. */
  lemma WithdrawSparesOthers(t: Treasury, from: Address, amount: nat, validator: Address, height: nat, v: Address)
    requires !Controls(t, from, v)
    ensures var u := Withdraw(t, from, amount, validator, height).books;
      && Get(u.stakes, v) == Get(t.stakes, v)
      && (v in u.delegations <==> v in t.delegations) && (v in u.delegations ==> u.delegations[v] == t.delegations[v])
      && Get(u.commissions, v) == Get(t.commissions, v)
  {
    var target := WithdrawsFrom(t, from, validator);
    if target.Some? { ConcernsIff(t, from, validator, target.value); }
    hide WithdrawsFrom, Entries;
  }

  /** The mature entries are the sender's whose release height is reached; all others stay. */
  lemma {:induction false} QueueMeaning(queue: seq<Unbonding>, from: Address, height: nat, e: Unbonding)
    ensures multiset(Matured(queue, from, height))[e] == if e.owner == from && e.release <= height then multiset(queue)[e] else 0
    ensures multiset(Unmatured(queue, from, height))[e] == if e.owner == from && e.release <= height then 0 else multiset(queue)[e]
  {
    if queue != [] {
      QueueMeaning(queue[1..], from, height, e);
      assert queue == [queue[0]] + queue[1..];
    }
  }

  /** Both keep their order. */
  lemma {:induction false} QueueJoins(xs: seq<Unbonding>, ys: seq<Unbonding>, from: Address, height: nat)
    ensures Matured(xs + ys, from, height) == Matured(xs, from, height) + Matured(ys, from, height)
    ensures Unmatured(xs + ys, from, height) == Unmatured(xs, from, height) + Unmatured(ys, from, height)
  {
    hide Mature;
    if xs == [] {
      assert xs + ys == ys;
    } else {
      var head, rest := if Mature(xs[0], from, height) then [xs[0]] else [], if Mature(xs[0], from, height) then [] else [xs[0]];
      assert (xs + ys)[1..] == xs[1..] + ys;
      QueueJoins(xs[1..], ys, from, height);
      Regroup(head, Matured(xs[1..], from, height), Matured(ys, from, height));
      Regroup(rest, Unmatured(xs[1..], from, height), Unmatured(ys, from, height));
    }
  }

  lemma Regroup(xs: seq<Unbonding>, ys: seq<Unbonding>, zs: seq<Unbonding>)
    ensures xs + (ys + zs) == xs + ys + zs
  {
  }

  /** A claim pays the sender what its mature entries are worth, and nobody else anything. */
  lemma ClaimMeaning(t: Treasury, from: Address, height: nat, a: Address, e: Unbonding)
    ensures var o := Claim(t, from, height);
      && Get(o.books.balances, a) == Get(t.balances, a)
           + (if o.ok then Share(a, from, Sum(Amounts(Matured(t.unbonding, from, height)))) else 0)
      && (o.ok ==> multiset(o.books.unbonding)[e]
                     == if e.owner == from && e.release <= height then 0 else multiset(t.unbonding)[e])
      && (!o.ok ==> o.books.unbonding == [])
      && o.books.stakes == t.stakes && o.books.delegations == t.delegations && o.books.commissions == t.commissions
  {
    QueueMeaning(t.unbonding, from, height, e);
    hide Matured, Unmatured;
  }
}
