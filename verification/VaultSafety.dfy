/** What holds of the vault over whole runs. */
module VaultSafety {
  import opened Common
  import opened Bytes
  import opened VaultSpec

  // ---------------------------------------------------------------- reading a run

  /** The call is a claim for `a`, and it pays. */
  predicate Pays(s: State, contract: Account, call: Call, a: Account) {
    call.op.Claim? && call.op.recipient == a && Step(s, contract, call).Done?
  }

  /** What a claim must meet, in the words of the contract's promises: not paused, a known platform, the next nonce, the day's
    * total within the cap, and the money there. */
  predicate MeetsChecks(s: State, contract: Account, call: Call) {
    && call.op.Claim?
    && (s.vault.config.Some? ==> !s.vault.config.value.paused)
    && call.caller in s.vault.platforms
    && call.op.nonce == Get(s.vault.nonces, call.op.recipient)
    && Get(s.vault.claimed, (call.op.recipient, call.timestamp / 86_400)) + call.op.amount
       <= (if s.vault.config.Some? then s.vault.config.value.dailyCap else 0)
    && call.op.amount <= Get(s.balances, contract)
  }

  /** Exactly when a claim pays: it meets the checks, and neither nonce nor the recipient's balance overflows. */
  lemma PaysIff(s: State, contract: Account, call: Call, a: Account)
    ensures Pays(s, contract, call, a) <==>
      && MeetsChecks(s, contract, call) && call.op.recipient == a
      && call.op.nonce + 1 < 0x1_0000_0000_0000_0000
      && (a == contract || Get(s.balances, a) + call.op.amount < 0x1_0000_0000_0000_0000_0000_0000_0000_0000)
  {
  }

  /** What the run pays to `a` by claims made on one day. */
  function PaidOn(s: State, contract: Account, calls: seq<Call>, a: Account, day: u64): nat {
    if calls == [] then 0
    else
      var front, call := calls[..|calls| - 1], calls[|calls| - 1];
      PaidOn(s, contract, front, a, day)
      + if Pays(Run(s, contract, front), contract, call, a) && Day(call.timestamp) == day then call.op.amount else 0
  }

  /** The largest cap in force at any call made on that day. */
  function PeakCap(s: State, contract: Account, calls: seq<Call>, day: u64): nat {
    if calls == [] then 0
    else
      var front, call := calls[..|calls| - 1], calls[|calls| - 1];
      var peak, cap := PeakCap(s, contract, front, day), Run(s, contract, front).vault.DailyCap();
      if Day(call.timestamp) == day && cap > peak then cap else peak
  }

  /** How many claims for `a` were paid. */
  function PaidClaims(s: State, contract: Account, calls: seq<Call>, a: Account): nat {
    if calls == [] then 0
    else
      var front, call := calls[..|calls| - 1], calls[|calls| - 1];
      PaidClaims(s, contract, front, a) + if Pays(Run(s, contract, front), contract, call, a) then 1 else 0
  }

  /** What the run brings in from outside. */
  function Funded(s: State, contract: Account, calls: seq<Call>): nat {
    if calls == [] then 0
    else
      var front, call := calls[..|calls| - 1], calls[|calls| - 1];
      Funded(s, contract, front) + if call.op.Fund? && Step(Run(s, contract, front), contract, call).Done? then call.value else 0
  }

  ghost predicate Ordered(calls: seq<Call>) {
    forall i, j :: 0 <= i < j < |calls| ==> calls[i].timestamp <= calls[j].timestamp
  }

  /** Cleanups that list `a` only reach days before the one they run on. */
  ghost predicate CleansOnlyThePast(calls: seq<Call>, a: Account) {
    forall i :: 0 <= i < |calls| && calls[i].op.Cleanup? && a in calls[i].op.addrs ==>
      calls[i].op.beforeDay <= Day(calls[i].timestamp)
  }

  // ---------------------------------------------------------------- the daily cap

  lemma DaysFollowTimestamps(t: u64, u: u64)
    requires t <= u
    ensures Day(t) <= Day(u)
  {
  }

  /** A claim that pays adds its amount to the record of the day, within the cap. */
  lemma PayingClaim(s: State, contract: Account, call: Call, a: Account)
    requires Pays(s, contract, call, a)
    ensures var t := Step(s, contract, call).state;
      var key := (a, Day(call.timestamp));
      && t.vault == s.vault.(claimed := s.vault.claimed[key := Get(s.vault.claimed, key) + call.op.amount],
                             nonces := s.vault.nonces[a := call.op.nonce + 1])
      && Get(t.vault.claimed, key) <= s.vault.DailyCap() && Get(s.vault.nonces, a) == call.op.nonce
  {
  }

  /** Nothing but a paying claim adds to a record; nothing but a cleanup that lists the address takes one away. */
  lemma RecordChanges(s: State, contract: Account, call: Call, a: Account, day: u64)
    requires !(Pays(s, contract, call, a) && Day(call.timestamp) == day)
    requires !(call.op.Cleanup? && a in call.op.addrs && day < call.op.beforeDay)
    ensures Get(After(s, contract, call).vault.claimed, (a, day)) == Get(s.vault.claimed, (a, day))
  {
  }

  /** Today's and later records say exactly what was paid, and no day is paid beyond the largest cap in force on it. */
  lemma {:induction false} CapHolds(s: State, contract: Account, calls: seq<Call>, a: Account, day: u64)
    requires s.vault == EMPTY && Ordered(calls) && CleansOnlyThePast(calls, a)
    ensures PaidOn(s, contract, calls, a, day) <= PeakCap(s, contract, calls, day)
    ensures (calls != [] ==> Day(calls[|calls| - 1].timestamp) <= day) ==>
      Get(Run(s, contract, calls).vault.claimed, (a, day)) == PaidOn(s, contract, calls, a, day)
  {
    if calls != [] {
      hide Run, PaidOn, PeakCap, Day, Ordered, CleansOnlyThePast;
      var front, call := calls[..|calls| - 1], calls[|calls| - 1];
      Prefix(calls, front, call, a);
      CapHolds(s, contract, front, a, day);
      LastCall(s, contract, front, call, a, day);
    }
  }

  lemma Prefix(calls: seq<Call>, front: seq<Call>, call: Call, a: Account)
    requires calls == front + [call] && Ordered(calls) && CleansOnlyThePast(calls, a)
    ensures Ordered(front) && CleansOnlyThePast(front, a)
    ensures front != [] ==> Day(front[|front| - 1].timestamp) <= Day(call.timestamp)
    ensures call.op.Cleanup? && a in call.op.addrs ==> call.op.beforeDay <= Day(call.timestamp)
  {
    forall i | 0 <= i < |front|
      ensures front[i] == calls[i]
    {
    }
    assert calls[|front|] == call;
    if front != [] {
      assert calls[|front| - 1] == front[|front| - 1];
      DaysFollowTimestamps(front[|front| - 1].timestamp, call.timestamp);
    }
  }

  lemma LastCall(s: State, contract: Account, front: seq<Call>, call: Call, a: Account, day: u64)
    requires Day(call.timestamp) <= day ==>
      Get(Run(s, contract, front).vault.claimed, (a, day)) == PaidOn(s, contract, front, a, day)
    requires PaidOn(s, contract, front, a, day) <= PeakCap(s, contract, front, day)
    requires call.op.Cleanup? && a in call.op.addrs ==> call.op.beforeDay <= Day(call.timestamp)
    ensures PaidOn(s, contract, front + [call], a, day) <= PeakCap(s, contract, front + [call], day)
    ensures Day(call.timestamp) <= day ==>
      Get(Run(s, contract, front + [call]).vault.claimed, (a, day)) == PaidOn(s, contract, front + [call], a, day)
  {
    var calls, before := front + [call], Run(s, contract, front);
    assert calls[..|calls| - 1] == front;
    if Pays(before, contract, call, a) && Day(call.timestamp) == day {
      PayingClaim(before, contract, call, a);
    } else if Day(call.timestamp) <= day {
      RecordChanges(before, contract, call, a, day);
    }
  }

  /** A cleanup forgets what an address has claimed on a day exactly when it lists the address and reaches past that day. */
  lemma CleanupForgetsIff(s: State, contract: Account, call: Call, a: Account, day: u64)
    requires call.op.Cleanup? && s.vault.IsOwner(call.caller) && (a, day) in s.vault.claimed
    ensures (a, day) !in After(s, contract, call).vault.claimed <==> a in call.op.addrs && day < call.op.beforeDay
  {
  }

  /** Whether anyone could still be paid beyond the cap on the day of a cleanup: exactly when the cleanup forgets that day's claims. */
  lemma CleanupReopensCapIff(s: State, contract: Account, cleanup: Call, a: Account, platform: Account)
    requires cleanup.op.Cleanup? && s.vault.IsOwner(cleanup.caller)
    requires !s.vault.Paused() && platform in s.vault.platforms && Get(s.vault.nonces, a) + 1 < U64_LIMIT
    requires Total(s.balances) < U128_LIMIT && Get(s.balances, contract) >= s.vault.DailyCap()
    requires 0 < Get(s.vault.claimed, (a, Day(cleanup.timestamp))) <= s.vault.DailyCap()
    ensures (exists amount: u128 ::
              Pays(After(s, contract, cleanup), contract, ClaimBy(platform, cleanup.timestamp, a, amount, Get(s.vault.nonces, a)), a)
              && Get(s.vault.claimed, (a, Day(cleanup.timestamp))) + amount > s.vault.DailyCap())
       <==> a in cleanup.op.addrs && Day(cleanup.timestamp) < cleanup.op.beforeDay
  {
    var day, t, cap := Day(cleanup.timestamp), After(s, contract, cleanup), s.vault.DailyCap();
    var claimed, nonce := Get(s.vault.claimed, (a, day)), Get(s.vault.nonces, a);
    assert t == s.(vault := s.vault.(claimed := Cleaned(s.vault.claimed, cleanup.op.addrs, cleanup.op.beforeDay)));
    if a in cleanup.op.addrs && day < cleanup.op.beforeDay {
      var again := ClaimBy(platform, cleanup.timestamp, a, cap, nonce);
      assert ClaimFault(t, contract, again) == None;
      RecipientFits(t.balances, contract, a, cap);
      assert Pays(t, contract, again, a) && claimed + cap > cap;
    } else {
      assert Get(t.vault.claimed, (a, day)) == claimed;
      forall amount: u128 | Pays(t, contract, ClaimBy(platform, cleanup.timestamp, a, amount, nonce), a)
        ensures claimed + amount <= cap
      {
        PayingClaim(t, contract, ClaimBy(platform, cleanup.timestamp, a, amount, nonce), a);
      }
    }
  }

  function ClaimBy(platform: Account, timestamp: u64, a: Account, amount: u128, nonce: u64): Call {
    Call(platform, 0, timestamp, Claim(a, amount, nonce))
  }

  lemma OneMore(s: State, contract: Account, front: seq<Call>, call: Call, a: Account, day: u64)
    ensures var before, calls := Run(s, contract, front), front + [call];
      && Run(s, contract, calls) == After(before, contract, call)
      && PaidOn(s, contract, calls, a, day) == PaidOn(s, contract, front, a, day)
         + (if Pays(before, contract, call, a) && Day(call.timestamp) == day then call.op.amount else 0)
      && PeakCap(s, contract, calls, day) ==
         if Day(call.timestamp) == day && before.vault.DailyCap() > PeakCap(s, contract, front, day)
         then before.vault.DailyCap() else PeakCap(s, contract, front, day)
  {
    assert (front + [call])[..|front|] == front;
  }

  function Opening(owner: Account): Call {
    Call(owner, 0, 0, Init(owner, 10, 0, [owner]))
  }

  function Taking(owner: Account, a: Account, nonce: u64): Call {
    Call(owner, 0, 0, Claim(a, 10, nonce))
  }

  function Sweeping(owner: Account, a: Account): Call {
    Call(owner, 0, 0, Cleanup(1, [a]))
  }

  /** A cleanup of the current day lets the cap be paid out twice. */
  lemma CleanupOfTodayBreaksCap(contract: Account, owner: Account, a: Account)
    requires a != contract
    ensures var s := State(EMPTY, map[contract := 20]);
      var calls := [] + [Opening(owner)] + [Taking(owner, a, 0)] + [Sweeping(owner, a)] + [Taking(owner, a, 1)];
      Ordered(calls) && PaidOn(s, contract, calls, a, 0) == 20 && PeakCap(s, contract, calls, 0) == 10
  {
    var s := State(EMPTY, map[contract := 20]);
    var begun := s.(vault := Vault(Some(Config(owner, 10, 0, false)), {owner}, map[], map[]));
    var paid := State(begun.vault.(nonces := map[a := 1], claimed := map[(a, 0) := 10]), map[contract := 10, a := 10]);
    var swept := paid.(vault := paid.vault.(claimed := map[]));
    OpeningOpens(s, contract, owner);
    TakingTakes(begun, contract, owner, a);
    SweepingSweeps(paid, contract, owner, a);
    hide Step, After, Pays, Run, PaidOn, PeakCap;
    PaidTwice(s, begun, paid, swept, contract, owner, a);
  }

  lemma OpeningOpens(s: State, contract: Account, owner: Account)
    requires s.vault == EMPTY
    ensures After(s, contract, Opening(owner)) == s.(vault := Vault(Some(Config(owner, 10, 0, false)), {owner}, map[], map[]))
  {
    assert (set p | p in [owner]) == {owner};
  }

  lemma TakingTakes(s: State, contract: Account, owner: Account, a: Account)
    requires a != contract && s.balances == map[contract := 20]
    requires s.vault == Vault(Some(Config(owner, 10, 0, false)), {owner}, map[], map[])
    ensures Pays(s, contract, Taking(owner, a, 0), a)
    ensures After(s, contract, Taking(owner, a, 0))
         == State(s.vault.(nonces := map[a := 1], claimed := map[(a, 0) := 10]), map[contract := 10, a := 10])
  {
  }

  lemma SweepingSweeps(s: State, contract: Account, owner: Account, a: Account)
    requires a != contract && s.balances == map[contract := 10, a := 10]
    requires s.vault == Vault(Some(Config(owner, 10, 0, false)), {owner}, map[a := 1], map[(a, 0) := 10])
    ensures var swept := s.(vault := s.vault.(claimed := map[]));
      After(s, contract, Sweeping(owner, a)) == swept && Pays(swept, contract, Taking(owner, a, 1), a)
  {
  }

  /** The four calls, given where each of them leads. */
  lemma PaidTwice(s: State, begun: State, paid: State, swept: State, contract: Account, owner: Account, a: Account)
    requires s.vault.DailyCap() == 0
    requires begun.vault.DailyCap() == paid.vault.DailyCap() == swept.vault.DailyCap() == 10
    requires After(s, contract, Opening(owner)) == begun && After(begun, contract, Taking(owner, a, 0)) == paid
    requires After(paid, contract, Sweeping(owner, a)) == swept
    requires Pays(begun, contract, Taking(owner, a, 0), a) && Pays(swept, contract, Taking(owner, a, 1), a)
    ensures var calls := [] + [Opening(owner)] + [Taking(owner, a, 0)] + [Sweeping(owner, a)] + [Taking(owner, a, 1)];
      PaidOn(s, contract, calls, a, 0) == 20 && PeakCap(s, contract, calls, 0) == 10
  {
    NotAClaim(s, contract, Opening(owner), a);
    NotAClaim(paid, contract, Sweeping(owner, a), a);
    hide Step, After, Pays, Run, PaidOn, PeakCap, Vault.DailyCap;
    var c1 := [] + [Opening(owner)];
    var c2 := c1 + [Taking(owner, a, 0)];
    var c3 := c2 + [Sweeping(owner, a)];
    EmptyRun(s, contract, a, 0);
    OneMore(s, contract, [], Opening(owner), a, 0);
    assert Run(s, contract, c1) == begun && PaidOn(s, contract, c1, a, 0) == 0 && PeakCap(s, contract, c1, 0) == 0;
    OneMore(s, contract, c1, Taking(owner, a, 0), a, 0);
    assert Run(s, contract, c2) == paid && PaidOn(s, contract, c2, a, 0) == 10 && PeakCap(s, contract, c2, 0) == 10;
    OneMore(s, contract, c2, Sweeping(owner, a), a, 0);
    assert Run(s, contract, c3) == swept && PaidOn(s, contract, c3, a, 0) == 10 && PeakCap(s, contract, c3, 0) == 10;
    OneMore(s, contract, c3, Taking(owner, a, 1), a, 0);
  }

  lemma NotAClaim(s: State, contract: Account, call: Call, a: Account)
    requires !call.op.Claim?
    ensures !Pays(s, contract, call, a)
  {
  }

  lemma EmptyRun(s: State, contract: Account, a: Account, day: u64)
    ensures Run(s, contract, []) == s && PaidOn(s, contract, [], a, day) == 0 && PeakCap(s, contract, [], day) == 0
  {
  }

  // ---------------------------------------------------------------- nonces

  lemma NonceChanges(s: State, contract: Account, call: Call, a: Account)
    ensures Get(After(s, contract, call).vault.nonces, a)
         == Get(s.vault.nonces, a) + if Pays(s, contract, call, a) then 1 else 0
  {
  }

  /** The stored nonce counts the claims that were paid. */
  lemma {:induction false} NonceCountsClaims(s: State, contract: Account, calls: seq<Call>, a: Account)
    requires s.vault == EMPTY
    ensures Get(Run(s, contract, calls).vault.nonces, a) == PaidClaims(s, contract, calls, a)
  {
    if calls != [] {
      NonceCountsClaims(s, contract, calls[..|calls| - 1], a);
      NonceChanges(Run(s, contract, calls[..|calls| - 1]), contract, calls[|calls| - 1], a);
    }
  }

  lemma {:induction false} ClaimsOnlyGrow(s: State, contract: Account, calls: seq<Call>, i: nat, a: Account)
    requires i <= |calls|
    ensures PaidClaims(s, contract, calls[..i], a) <= PaidClaims(s, contract, calls, a)
  {
    if i < |calls| {
      ClaimsOnlyGrow(s, contract, calls[..|calls| - 1], i, a);
      assert calls[..|calls| - 1][..i] == calls[..i];
    } else {
      assert calls[..i] == calls;
    }
  }

  /** The claims paid to an address carry the nonces 0, 1, 2, ... in order: each nonce pays at most once. */
  lemma NoncesPayOnce(s: State, contract: Account, calls: seq<Call>, i: nat, j: nat, a: Account)
    requires s.vault == EMPTY && i < j < |calls|
    requires Pays(Run(s, contract, calls[..i]), contract, calls[i], a) && Pays(Run(s, contract, calls[..j]), contract, calls[j], a)
    ensures calls[i].op.nonce == PaidClaims(s, contract, calls[..i], a)
    ensures calls[i].op.nonce < calls[j].op.nonce
  {
    NonceCountsClaims(s, contract, calls[..i], a);
    NonceCountsClaims(s, contract, calls[..j], a);
    PayingClaim(Run(s, contract, calls[..i]), contract, calls[i], a);
    PayingClaim(Run(s, contract, calls[..j]), contract, calls[j], a);
    ClaimsOnlyGrow(s, contract, calls[..j], i + 1, a);
    assert calls[..j][..i + 1] == calls[..i + 1] && calls[..i + 1][..i] == calls[..i];
  }

  // ---------------------------------------------------------------- money

  lemma TransferConserves(balances: map<Account, u128>, contract: Account, to: Account, amount: u128)
    requires Get(balances, contract) >= amount
    ensures Transferred(balances, contract, to, amount).Some? ==>
      Total(Transferred(balances, contract, to, amount).value) == Total(balances)
  {
    var paid: map<Account, u128> := balances[contract := Get(balances, contract) - amount];
    TotalUpdate(balances, contract, Get(balances, contract) - amount);
    TotalUpdate(paid, to, Get(paid, to) + amount);
  }

  lemma StepConserves(s: State, contract: Account, call: Call)
    ensures Total(After(s, contract, call).balances)
         == Total(s.balances) + if call.op.Fund? && Step(s, contract, call).Done? then call.value else 0
  {
    match call.op
    case Fund => TotalUpdate(s.balances, contract, Get(s.balances, contract) + call.value);
    case Claim(recipient, amount, _) =>
      if Get(s.balances, contract) >= amount { TransferConserves(s.balances, contract, recipient, amount); }
    case Withdraw(amount) =>
      if s.vault.config.Some? && Get(s.balances, contract) >= amount {
        TransferConserves(s.balances, contract, s.vault.config.value.owner, amount);
      }
    case _ =>
  }

  /** Over a run the sum of all balances grows by what was funded; claims and withdrawals only move it. */
  lemma {:induction false} RunConserves(s: State, contract: Account, calls: seq<Call>)
    ensures Total(Run(s, contract, calls).balances) == Total(s.balances) + Funded(s, contract, calls)
  {
    if calls != [] {
      RunConserves(s, contract, calls[..|calls| - 1]);
      StepConserves(Run(s, contract, calls[..|calls| - 1]), contract, calls[|calls| - 1]);
    }
  }

  /** A second init, an acceptable claim with a used-up nonce, or a missing right. */
  predicate Forbidden(s: State, contract: Account, call: Call) {
    match call.op
    case Init(_, _, _, _) => s.vault.config.Some?
    case Fund => false
    case Claim(_, _, nonce) => MeetsChecks(s, contract, call) && nonce == U64_LIMIT - 1
    case _ => s.vault.config.Some? ==> s.vault.config.value.owner != call.caller
  }

  /** While all money together fits in 128 bits no transfer overflows: a call panics exactly when it is forbidden. */
  lemma PanicsOnlyWithoutRights(s: State, contract: Account, call: Call)
    requires Total(s.balances) + call.value < U128_LIMIT
    ensures Step(s, contract, call).Panicked? <==> Forbidden(s, contract, call)
  {
    match call.op
    case Fund => TotalBounds(s.balances, contract);
    case Claim(recipient, amount, _) =>
      if ClaimFault(s, contract, call) == None { RecipientFits(s.balances, contract, recipient, amount); }
    case Withdraw(amount) =>
      if s.vault.config.Some? && Get(s.balances, contract) >= amount {
        RecipientFits(s.balances, contract, s.vault.config.value.owner, amount);
      }
    case _ =>
  }

  lemma RecipientFits(balances: map<Account, u128>, contract: Account, to: Account, amount: u128)
    requires Total(balances) < U128_LIMIT && Get(balances, contract) >= amount
    ensures Transferred(balances, contract, to, amount).Some?
  {
    var paid: map<Account, u128> := balances[contract := Get(balances, contract) - amount];
    TotalUpdate(balances, contract, Get(balances, contract) - amount);
    TotalBounds(paid, to);
  }

  // ---------------------------------------------------------------- rights

  /** Once initialised, the owner never changes. */
  lemma {:induction false} OwnerIsForever(s: State, contract: Account, calls: seq<Call>)
    requires s.vault.config.Some?
    ensures Run(s, contract, calls).vault.config.Some?
    ensures Run(s, contract, calls).vault.config.value.owner == s.vault.config.value.owner
  {
    if calls != [] {
      OwnerIsForever(s, contract, calls[..|calls| - 1]);
    }
  }

  /** What the run pays by claims to others than the contract itself. */
  function PaidOut(s: State, contract: Account, calls: seq<Call>): nat {
    if calls == [] then 0
    else
      var front, call := calls[..|calls| - 1], calls[|calls| - 1];
      PaidOut(s, contract, front)
      + if call.op.Claim? && call.op.recipient != contract && Step(Run(s, contract, front), contract, call).Done?
        then call.op.amount else 0
  }

  /** One call by anyone but the owner: records grow by what a claim pays, the contract's balance by what is funded less that. */
  lemma OthersOnlyClaim(s: State, contract: Account, call: Call, a: Account, day: u64)
    requires s.vault.config.Some? && call.caller != s.vault.config.value.owner
    ensures var t := After(s, contract, call);
      && t.vault.config == s.vault.config && t.vault.platforms == s.vault.platforms
      && Get(t.vault.claimed, (a, day)) == Get(s.vault.claimed, (a, day))
         + (if Pays(s, contract, call, a) && Day(call.timestamp) == day then call.op.amount else 0)
      && Get(t.balances, contract)
         + (if call.op.Claim? && call.op.recipient != contract && Step(s, contract, call).Done? then call.op.amount else 0)
         == Get(s.balances, contract) + (if call.op.Fund? && Step(s, contract, call).Done? then call.value else 0)
  {
    if Pays(s, contract, call, a) && Day(call.timestamp) == day {
      PayingClaim(s, contract, call, a);
    } else if !call.op.Cleanup? {
      RecordChanges(s, contract, call, a, day);
    }
  }

  /** While the owner does nothing, cap, pause and platforms stay, every claim record grows by exactly what is paid, and the
    * contract's balance changes only by claims and funding. */
  lemma {:induction false} OnlyTheOwnerDecides(s: State, contract: Account, calls: seq<Call>, a: Account, day: u64)
    requires s.vault.config.Some? && forall i :: 0 <= i < |calls| ==> calls[i].caller != s.vault.config.value.owner
    ensures Run(s, contract, calls).vault.config == s.vault.config && Run(s, contract, calls).vault.platforms == s.vault.platforms
    ensures Get(Run(s, contract, calls).vault.claimed, (a, day))
         == Get(s.vault.claimed, (a, day)) + PaidOn(s, contract, calls, a, day)
    ensures Get(Run(s, contract, calls).balances, contract) + PaidOut(s, contract, calls)
         == Get(s.balances, contract) + Funded(s, contract, calls)
  {
    hide After, Pays, Step;
    if calls != [] {
      OnlyTheOwnerDecides(s, contract, calls[..|calls| - 1], a, day);
      OthersOnlyClaim(Run(s, contract, calls[..|calls| - 1]), contract, calls[|calls| - 1], a, day);
    }
  }
}
