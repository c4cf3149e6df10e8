/** Which transactions a producer takes from its mempool, and what executing or replaying a list of them means. */
module Mempool {
  import opened Common
  import opened ConsensusTypes
  import opened NodeTypes
  import opened NodeSpec

  // ---------------------------------------------------------------- sorting

  predicate Before(x: Tx, y: Tx) {
    x.from < y.from || (x.from == y.from && x.nonce <= y.nonce)
  }

  ghost predicate InTxOrder(txs: seq<Tx>) {
    forall i, j :: 0 <= i < j < |txs| ==> Before(txs[i], txs[j])
  }

  predicate Ties(tx: Tx, a: Address, n: nat) {
    tx.from == a && tx.nonce == n
  }

  function IfTies(tx: Tx, a: Address, n: nat): seq<Tx> {
    if Ties(tx, a, n) then [tx] else []
  }

  /** The transactions of one sender and nonce, in order. */
  function Rivals(txs: seq<Tx>, a: Address, n: nat): seq<Tx> {
    if txs == [] then [] else IfTies(txs[0], a, n) + Rivals(txs[1..], a, n)
  }

  lemma RivalsOf(tx: Tx, txs: seq<Tx>, a: Address, n: nat)
    ensures Rivals([tx] + txs, a, n) == IfTies(tx, a, n) + Rivals(txs, a, n)
  {
    assert ([tx] + txs)[1..] == txs;
  }

  lemma Regroup(xs: seq<Tx>, ys: seq<Tx>, zs: seq<Tx>)
    ensures xs + (ys + zs) == xs + ys + zs
  {
  }

  lemma {:induction false} RivalsJoin(txs: seq<Tx>, tx: Tx, a: Address, n: nat)
    ensures Rivals(txs + [tx], a, n) == Rivals(txs, a, n) + IfTies(tx, a, n)
  {
    hide IfTies;
    if txs == [] {
      assert (txs + [tx])[1..] == [];
    } else {
      assert (txs + [tx])[1..] == txs[1..] + [tx];
      RivalsJoin(txs[1..], tx, a, n);
      Regroup(IfTies(txs[0], a, n), Rivals(txs[1..], a, n), IfTies(tx, a, n));
    }
  }

  lemma {:induction false} NoRivals(txs: seq<Tx>, a: Address, n: nat)
    requires forall i :: 0 <= i < |txs| ==> !Ties(txs[i], a, n)
    ensures Rivals(txs, a, n) == []
  {
    if txs != [] {
      assert forall i :: 0 <= i < |txs[1..]| ==> txs[1..][i] == txs[i + 1];
      NoRivals(txs[1..], a, n);
    }
  }

  lemma AheadOfAll(tx: Tx, txs: seq<Tx>)
    requires InTxOrder(txs) && txs != [] && !Before(txs[0], tx)
    ensures InTxOrder([tx] + txs)
    ensures forall i :: 0 <= i < |txs| ==> !Ties(txs[i], tx.from, tx.nonce)
  {
    forall i | 0 <= i < |txs|
      ensures !Before(txs[i], tx) && Before(tx, txs[i])
    {
      assert i > 0 ==> Before(txs[0], txs[i]);
    }
  }

  lemma BehindFirst(first: Tx, tx: Tx, others: seq<Tx>, txs: seq<Tx>)
    requires InTxOrder([first] + others) && Before(first, tx)
    requires InTxOrder(txs) && multiset(txs) == multiset(others) + multiset{tx}
    ensures InTxOrder([first] + txs)
  {
    forall j | 0 <= j < |txs|
      ensures Before(first, txs[j])
    {
      assert txs[j] in multiset(txs);
      if txs[j] != tx {
        assert txs[j] in others;
        var i :| 0 <= i < |others| && others[i] == txs[j];
        assert Before(([first] + others)[0], ([first] + others)[i + 1]);
      }
    }
  }

  lemma {:induction false} InsertedInOrder(tx: Tx, txs: seq<Tx>)
    requires InTxOrder(txs)
    ensures InTxOrder(InsertTx(tx, txs)) && multiset(InsertTx(tx, txs)) == multiset(txs) + multiset{tx}
  {
    if txs != [] {
      if Before(txs[0], tx) {
        var others, rest := txs[1..], InsertTx(tx, txs[1..]);
        assert txs == [txs[0]] + others;
        InsertedInOrder(tx, others);
        hide InTxOrder, Before;
        BehindFirst(txs[0], tx, others, rest);
      } else {
        AheadOfAll(tx, txs);
      }
    }
  }

  lemma {:induction false} InsertedBehindRivals(tx: Tx, txs: seq<Tx>, a: Address, n: nat)
    requires InTxOrder(txs)
    ensures Rivals(InsertTx(tx, txs), a, n) == Rivals(txs, a, n) + IfTies(tx, a, n)
  {
    RivalsOf(tx, txs, a, n);
    if txs != [] {
      if Before(txs[0], tx) {
        InsertedBehindRivals(tx, txs[1..], a, n);
        RivalsOf(txs[0], InsertTx(tx, txs[1..]), a, n);
        hide IfTies, InTxOrder;
        Regroup(IfTies(txs[0], a, n), Rivals(txs[1..], a, n), IfTies(tx, a, n));
      } else {
        AheadOfAll(tx, txs);
        if Ties(tx, a, n) { NoRivals(txs, a, n); }
        hide Rivals, Ties, InTxOrder;
      }
    }
  }

  /** Sorting by sender and nonce keeps all transactions, and ties in the order they had. */
  lemma {:induction false} SortedIsStable(txs: seq<Tx>, a: Address, n: nat)
    ensures InTxOrder(SortTxs(txs)) && multiset(SortTxs(txs)) == multiset(txs)
    ensures Rivals(SortTxs(txs), a, n) == Rivals(txs, a, n)
  {
    if txs != [] {
      var last, others := txs[|txs| - 1], txs[..|txs| - 1];
      SortedIsStable(others, a, n);
      InsertedInOrder(last, SortTxs(others));
      InsertedBehindRivals(last, SortTxs(others), a, n);
      hide InsertTx, InTxOrder, IfTies;
      RivalsJoin(others, last, a, n);
      assert txs == others + [last];
    }
  }

  /** The batch is the first 500 of the sorted mempool, or all of it; the rest stays. */
  lemma BatchMeaning(mempool: seq<Tx>, a: Address, n: nat)
    ensures InTxOrder(Batch(mempool) + Excess(mempool))
    ensures multiset(Batch(mempool)) + multiset(Excess(mempool)) == multiset(mempool)
    ensures Rivals(Batch(mempool) + Excess(mempool), a, n) == Rivals(mempool, a, n)
    ensures |Batch(mempool)| == if |mempool| <= 500 then |mempool| else 500
  {
    SortedIsStable(mempool, a, n);
    var sorted, all := SortTxs(mempool), Batch(mempool) + Excess(mempool);
    assert all == sorted;
    assert multiset(all) == multiset(Batch(mempool)) + multiset(Excess(mempool));
  }

  // ---------------------------------------------------------------- executing and replaying lists

  /** One transaction is executed by applying it: accepted, it is included with its fee and events; refused, it is dropped. */
  lemma ExecuteOne(k: Kernel, w: World, tx: Tx, i: nat)
    ensures var (after, receipt) := k.ApplyTx(w, tx, i);
      Execute(k, w, [tx], i)
      == if receipt.Some? then Execution(after, receipt.value.fee, [tx], receipt.value.events) else Execution(after, 0, [], [])
  {
    hide Kernel.ApplyTx;
    var (after, receipt) := k.ApplyTx(w, tx, i);
    assert [tx][1..] == [];
    assert Execute(k, after, [], i + 1) == Execution(after, 0, [], []);
  }

  /** A list is executed by executing its parts one after the other, every transaction using up an index. */
  lemma {:induction false} ExecuteInParts(k: Kernel, w: World, xs: seq<Tx>, ys: seq<Tx>, i: nat)
    ensures var first := Execute(k, w, xs, i);
      var second := Execute(k, first.world, ys, i + |xs|);
      Execute(k, w, xs + ys, i)
      == Execution(second.world, first.fees + second.fees, first.included + second.included, first.events + second.events)
    decreases |xs|
  {
    hide Kernel.ApplyTx;
    if xs == [] {
      assert xs + ys == ys;
    } else {
      assert (xs + ys)[1..] == xs[1..] + ys;
      ExecuteInParts(k, k.ApplyTx(w, xs[0], i).0, xs[1..], ys, i + 1);
    }
  }

  lemma ReplayOne(k: Kernel, w: World, tx: Tx, i: nat)
    ensures var (after, receipt) := k.ApplyTx(w, tx, i);
      Replay(k, w, [tx], i) == if receipt.Some? then Some((after, receipt.value.fee)) else None
  {
    hide Kernel.ApplyTx;
    var (after, receipt) := k.ApplyTx(w, tx, i);
    assert [tx][1..] == [];
    assert Replay(k, after, [], i + 1) == Some((after, 0));
  }

  /** A list passes exactly when its parts do, the second after the first. */
  lemma {:induction false} ReplayInParts(k: Kernel, w: World, xs: seq<Tx>, ys: seq<Tx>, i: nat)
    ensures var first := Replay(k, w, xs, i);
      if first == None then Replay(k, w, xs + ys, i) == None
      else
        var second := Replay(k, first.value.0, ys, i + |xs|);
        Replay(k, w, xs + ys, i)
        == if second == None then None else Some((second.value.0, first.value.1 + second.value.1))
    decreases |xs|
  {
    hide Kernel.ApplyTx;
    if xs == [] {
      assert xs + ys == ys;
    } else {
      assert (xs + ys)[1..] == xs[1..] + ys;
      ReplayInParts(k, k.ApplyTx(w, xs[0], i).0, xs[1..], ys, i + 1);
    }
  }
}
