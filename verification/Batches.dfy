/** Executing a batch against replaying what it included, and the traces refused transactions leave between the two. */
module Batches {
  import opened Common
  import opened NodeTypes
  import opened NodeSpec
  import opened Transactions
  import opened Bookkeeping
  import Rewards
  import Staking

  // ---------------------------------------------------------------- what a batch leaves behind

  /** Refused transactions of the batch, those that stake aside, leave the state as it was. */
  predicate OthersFailCleanly(k: Kernel, w: World, txs: seq<Tx>, i: nat)
    decreases |txs|
  {
    txs != [] ==>
      var (after, receipt) := k.ApplyTx(w, txs[0], i);
      && (receipt == None && txs[0].body.Other? ==> after == w)
      && OthersFailCleanly(k, after, txs[1..], i + 1)
  }

  /** Tokens that refused claims and withdrawals of the batch take out of circulation. */
  function BatchLoss(k: Kernel, w: World, txs: seq<Tx>, i: nat): nat
    decreases |txs|
  {
    if txs == [] then 0
    else
      var (after, receipt) := k.ApplyTx(w, txs[0], i);
      (if receipt == None then RefusalLoss(k, w, txs[0]) else 0) + BatchLoss(k, after, txs[1..], i + 1)
  }

  /** No refused transaction of the batch leaves a trace. */
  predicate Traceless(k: Kernel, w: World, txs: seq<Tx>, i: nat)
    decreases |txs|
  {
    txs != [] ==>
      var (after, receipt) := k.ApplyTx(w, txs[0], i);
      && (receipt == None ==> after == w)
      && Traceless(k, after, txs[1..], i + 1)
  }

  /** With delegations backed, the traces of staking transactions are exactly their losses. */
  lemma {:induction false} TracelessIff(k: Kernel, w: World, txs: seq<Tx>, i: nat)
    requires k.TokensLawful() && Staking.Backed(Books(w))
    ensures Traceless(k, w, txs, i) <==> OthersFailCleanly(k, w, txs, i) && BatchLoss(k, w, txs, i) == 0
    decreases |txs|
  {
    hide Books, Supply, Kernel.ApplyTx, Kernel.TokensLawful, RefusalLoss, Staking.Backed;
    if txs != [] {
      var (after, receipt) := k.ApplyTx(w, txs[0], i);
      if receipt == None {
        if txs[0].body.Other? { OthersLoseNothing(k, w, txs[0]); } else { BackedFailsCleanlyIff(k, w, txs[0], i); }
      }
      TransactionStaysBacked(k, w, txs[0], i);
      TracelessIff(k, after, txs[1..], i + 1);
    }
  }

  lemma OthersLoseNothing(k: Kernel, w: World, tx: Tx)
    requires tx.body.Other?
    ensures RefusalLoss(k, w, tx) == 0
  {
  }

  // ---------------------------------------------------------------- books

  lemma BucketOfBooks(w: World)
    ensures Books(w).bucket == w.ledger.bucket
  {
  }

  lemma {:induction false} ExecutionBooks(k: Kernel, w: World, txs: seq<Tx>, i: nat, height: nat)
    requires k.TokensLawful() && Booked(w, height)
    ensures Booked(Execute(k, w, txs, i).world, height) && Execute(k, w, txs, i).world.ledger.bucket == w.ledger.bucket
    decreases |txs|
  {
    hide Books, Supply, Kernel.ApplyTx, Kernel.TokensLawful, Rewards.Booked, Staking.Backed;
    if txs != [] {
      var after := k.ApplyTx(w, txs[0], i).0;
      TransactionSupply(k, w, txs[0], i);
      TransactionStaysBacked(k, w, txs[0], i);
      Rewards.KeptBookings(Books(w), Books(after), height);
      BucketOfBooks(w);
      BucketOfBooks(after);
      ExecutionBooks(k, after, txs[1..], i + 1, height);
    }
  }

  lemma {:induction false} ReplayBooks(k: Kernel, w: World, txs: seq<Tx>, i: nat, height: nat)
    requires k.TokensLawful() && Booked(w, height) && Replay(k, w, txs, i).Some?
    ensures Booked(Replay(k, w, txs, i).value.0, height) && Replay(k, w, txs, i).value.0.ledger.bucket == w.ledger.bucket
    decreases |txs|
  {
    hide Books, Supply, Kernel.ApplyTx, Kernel.TokensLawful, Rewards.Booked, Staking.Backed;
    if txs != [] {
      var after := k.ApplyTx(w, txs[0], i).0;
      TransactionSupply(k, w, txs[0], i);
      TransactionStaysBacked(k, w, txs[0], i);
      Rewards.KeptBookings(Books(w), Books(after), height);
      BucketOfBooks(w);
      BucketOfBooks(after);
      ReplayBooks(k, after, txs[1..], i + 1, height);
    }
  }

  /** What an execution takes out of circulation: its fees, and its loss. */
  lemma {:induction false} ExecutionSupply(k: Kernel, w: World, txs: seq<Tx>, i: nat)
    requires k.TokensLawful()
    ensures var run := Execute(k, w, txs, i); Supply(run.world) + run.fees + BatchLoss(k, w, txs, i) == Supply(w)
    decreases |txs|
  {
    hide Books, Supply, Kernel.ApplyTx, Kernel.TokensLawful, RefusalLoss;
    if txs != [] {
      TransactionSupply(k, w, txs[0], i);
      ExecutionSupply(k, k.ApplyTx(w, txs[0], i).0, txs[1..], i + 1);
    }
  }

  /** A replay takes out its fees. */
  lemma {:induction false} ReplaySupply(k: Kernel, w: World, txs: seq<Tx>, i: nat)
    requires k.TokensLawful() && Replay(k, w, txs, i).Some?
    ensures Supply(Replay(k, w, txs, i).value.0) + Replay(k, w, txs, i).value.1 == Supply(w)
    decreases |txs|
  {
    hide Books, Supply, Kernel.ApplyTx, Kernel.TokensLawful, RefusalLoss;
    if txs != [] {
      TransactionSupply(k, w, txs[0], i);
      ReplaySupply(k, k.ApplyTx(w, txs[0], i).0, txs[1..], i + 1);
    }
  }

  // ---------------------------------------------------------------- replaying an execution

  lemma {:induction false} IncludedIsShort(k: Kernel, w: World, txs: seq<Tx>, i: nat)
    ensures |Execute(k, w, txs, i).included| <= |txs|
    decreases |txs|
  {
    hide Kernel.ApplyTx;
    if txs != [] {
      IncludedIsShort(k, k.ApplyTx(w, txs[0], i).0, txs[1..], i + 1);
    }
  }

  /** Fees depend on the transactions alone. */
  lemma {:induction false} ReplayFees(k: Kernel, w: World, v: World, txs: seq<Tx>, i: nat, j: nat)
    requires k.IndexLawful() && Replay(k, w, Execute(k, v, txs, i).included, j).Some?
    ensures Replay(k, w, Execute(k, v, txs, i).included, j).value.1 == Execute(k, v, txs, i).fees
    decreases |txs|
  {
    hide Kernel.ApplyTx, Kernel.IndexLawful;
    if txs != [] {
      var (after, receipt) := k.ApplyTx(v, txs[0], i);
      if receipt == None {
        ReplayFees(k, w, after, txs[1..], i + 1, j);
      } else {
        IndexDoesNotMatter(k, v, txs[0], i, i);
        IndexDoesNotMatter(k, w, txs[0], j, j);
        var run := Execute(k, v, txs, i);
        assert run.included[0] == txs[0] && run.included[1..] == Execute(k, after, txs[1..], i + 1).included;
        ReplayFees(k, k.ApplyTx(w, txs[0], j).0, after, txs[1..], i + 1, j + 1);
      }
    }
  }

  /** Replaying the included transactions repeats a traceless execution, whatever the indices. */
  lemma {:induction false} ReplayRepeatsExecution(k: Kernel, w: World, txs: seq<Tx>, i: nat, j: nat)
    requires k.IndexLawful() && Traceless(k, w, txs, i)
    ensures var run := Execute(k, w, txs, i); Replay(k, w, run.included, j) == Some((run.world, run.fees))
    decreases |txs|
  {
    hide Kernel.ApplyTx, Kernel.IndexLawful;
    if txs != [] {
      var (after, receipt) := k.ApplyTx(w, txs[0], i);
      if receipt == None {
        ReplayRepeatsExecution(k, w, txs[1..], i + 1, j);
      } else {
        IndexDoesNotMatter(k, w, txs[0], i, j);
        ReplayRepeatsExecution(k, after, txs[1..], i + 1, j + 1);
        var run := Execute(k, w, txs, i);
        assert run.included[0] == txs[0] && run.included[1..] == Execute(k, after, txs[1..], i + 1).included;
      }
    }
  }

  /** Where calls outside staking fail cleanly, it repeats the execution exactly when no token is lost. */
  lemma ReplayRepeatsIff(k: Kernel, w: World, txs: seq<Tx>, i: nat, j: nat)
    requires k.IndexLawful() && k.TokensLawful() && Staking.Backed(Books(w)) && OthersFailCleanly(k, w, txs, i)
    ensures var run := Execute(k, w, txs, i);
      Replay(k, w, run.included, j) == Some((run.world, run.fees)) <==> BatchLoss(k, w, txs, i) == 0
  {
    hide Kernel.IndexLawful, Kernel.TokensLawful, OthersFailCleanly, BatchLoss, Execute, Replay, Supply, Books, Staking.Backed;
    TracelessIff(k, w, txs, i);
    var run := Execute(k, w, txs, i);
    var replayed := Replay(k, w, run.included, j);
    if Traceless(k, w, txs, i) {
      ReplayRepeatsExecution(k, w, txs, i, j);
    } else if replayed.Some? {
      ExecutionSupply(k, w, txs, i);
      ReplaySupply(k, w, run.included, j);
    }
  }

  // ---------------------------------------------------------------- the laws can be met

  /** What is assumed of the handlers outside staking is consistent with what is proved of those inside: a chain that
    * refuses every other transaction meets every law. */
  lemma LawsAreConsistent(k: Kernel)
    ensures exists l: Kernel :: l.Lawful() && l.CheckinsLawful() && l.NoncesLawful()
  {
    var l := k.(handle := (w, tx, i) => (w, None), verifies := (a, h, signature) => true);
    hide Supply, Books;
    assert l.IndexLawful() && l.TokensLawful() && l.SignaturesLawful();
    assert l.Lawful() && l.CheckinsLawful() && l.NoncesLawful();
  }
}
