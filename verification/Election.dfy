/** Proposer election: weighted choice by cumulative weights, and the fallback proposer. */
module Election {
  import opened Common
  import opened ConsensusTypes
  import opened Ranking

  function TotalWeight(vs: seq<ActiveValidator>): nat {
    if vs == [] then 0 else vs[0].weight + TotalWeight(vs[1..])
  }

  /** Sum of the weights before position i. */
  function WeightBefore(vs: seq<ActiveValidator>, i: nat): nat
    requires i <= |vs|
  {
    if i == 0 then 0 else WeightBefore(vs, i - 1) + vs[i - 1].weight
  }

  lemma {:induction false} WeightBeforeSplit(vs: seq<ActiveValidator>, i: nat)
    requires i <= |vs|
    ensures TotalWeight(vs) == WeightBefore(vs, i) + TotalWeight(vs[i..])
  {
    if i == 0 {
      assert vs[0..] == vs;
    } else {
      WeightBeforeSplit(vs, i - 1);
      assert vs[i - 1..][1..] == vs[i..];
    }
  }

  lemma {:induction false} WeightBeforeMonotone(vs: seq<ActiveValidator>, i: nat, j: nat)
    requires i <= j <= |vs|
    ensures WeightBefore(vs, i) <= WeightBefore(vs, j)
  {
    if i < j {
      WeightBeforeMonotone(vs, i, j - 1);
    }
  }

  /** `pick` falls into the interval of validator i. */
  ghost predicate Picks(vs: seq<ActiveValidator>, pick: nat, i: nat) {
    i < |vs| && WeightBefore(vs, i) <= pick < WeightBefore(vs, i + 1)
  }

  /** The first position whose cumulative weight exceeds `pick`. */
  function PickIndex(vs: seq<ActiveValidator>, pick: nat, i: nat): (r: nat)
    requires i < |vs| && WeightBefore(vs, i) <= pick < TotalWeight(vs)
    ensures Picks(vs, pick, r)
    decreases |vs| - i
  {
    WeightBeforeSplit(vs, i + 1);
    if pick < WeightBefore(vs, i + 1) then i else PickIndex(vs, pick, i + 1)
  }

  /** The elected proposer, as a function of the pseudo-random seed. */
  function Proposer(vs: seq<ActiveValidator>, seed: nat): Option<Address> {
    if vs == [] then None
    else if |vs| == 1 || TotalWeight(vs) == 0 then Some(vs[0].address)
    else Some(vs[PickIndex(vs, seed % TotalWeight(vs), 0)].address)
  }

  /** The walk over cumulative weights. Its fallback line after the loop is never reached. */
  method ElectProposer(vs: seq<ActiveValidator>, seed: nat) returns (r: Option<Address>)
    ensures r == Proposer(vs, seed)
  {
    if vs == [] {
      return None;
    }
    if |vs| == 1 {
      return Some(vs[0].address);
    }
    var total := SumWeights(vs);
    if total == 0 {
      return Some(vs[0].address);
    }
    var pick := seed % total;
    ghost var chosen := PickIndex(vs, pick, 0);
    var cumulative := 0;
    for i := 0 to |vs|
      invariant cumulative == WeightBefore(vs, i) <= pick
      invariant i <= chosen
    {
      cumulative := cumulative + vs[i].weight;
      if pick < cumulative {
        PickIsUnique(vs, pick, i, chosen);
        return Some(vs[i].address);
      }
      if i == chosen {
        assert false;
      }
    }
    assert false;
  }

  method SumWeights(vs: seq<ActiveValidator>) returns (total: nat)
    ensures total == TotalWeight(vs)
  {
    total := 0;
    for i := 0 to |vs|
      invariant TotalWeight(vs) == total + TotalWeight(vs[i..])
    {
      assert vs[i..][1..] == vs[i + 1..];
      total := total + vs[i].weight;
    }
  }

  lemma PickIsUnique(vs: seq<ActiveValidator>, pick: nat, i: nat, j: nat)
    requires Picks(vs, pick, i) && Picks(vs, pick, j)
    ensures i == j
  {
    if i < j {
      WeightBeforeMonotone(vs, i + 1, j);
    } else if j < i {
      WeightBeforeMonotone(vs, j + 1, i);
    }
  }

  /** The residues for which position i is elected. */
  ghost function Share(vs: seq<ActiveValidator>, i: nat): set<nat>
    requires i < |vs|
  {
    set pick | 0 <= pick < TotalWeight(vs) && Proposer(vs, pick) == Some(vs[i].address)
  }

  ghost function Interval(lo: nat, hi: nat): (r: set<nat>)
    requires lo <= hi
    ensures |r| == hi - lo && forall x: nat :: x in r <==> lo <= x < hi
    decreases hi - lo
  {
    if lo == hi then {} else Interval(lo, hi - 1) + {hi - 1}
  }

  lemma ElectedIff(vs: seq<ActiveValidator>, pick: nat, i: nat)
    requires i < |vs| && DistinctAddresses(vs) && pick < TotalWeight(vs)
    ensures Proposer(vs, pick) == Some(vs[i].address) <==> Picks(vs, pick, i)
  {
    if |vs| == 1 {
      WeightBeforeSplit(vs, 1);
    } else {
      assert pick % TotalWeight(vs) == pick;
      var j := PickIndex(vs, pick, 0);
      if Picks(vs, pick, i) {
        PickIsUnique(vs, pick, i, j);
      }
    }
  }

  /** Each validator is elected for exactly `weight` of the residues below the total weight. */
  lemma ElectionIsExactPartition(vs: seq<ActiveValidator>, i: nat)
    requires i < |vs| && DistinctAddresses(vs) && TotalWeight(vs) > 0
    ensures |Share(vs, i)| == vs[i].weight
  {
    WeightBeforeSplit(vs, |vs|);
    WeightBeforeMonotone(vs, i + 1, |vs|);
    var residues := Interval(WeightBefore(vs, i), WeightBefore(vs, i + 1));
    forall pick: nat
      ensures pick in Share(vs, i) <==> pick in residues
    {
      if pick < TotalWeight(vs) {
        ElectedIff(vs, pick, i);
      }
    }
    assert Share(vs, i) == residues;
  }

  lemma SmallRemainder(x: nat, n: nat)
    requires x < n
    ensures x % n == x
  {
  }

  lemma ResidueDecides(vs: seq<ActiveValidator>, seed: nat)
    requires TotalWeight(vs) > 0
    ensures Proposer(vs, seed) == Proposer(vs, seed % TotalWeight(vs))
  {
    hide PickIndex;
    SmallRemainder(seed % TotalWeight(vs), TotalWeight(vs));
  }

  /** Who is elected, for every seed: the one whose interval of cumulative weights holds the seed modulo the total; the first one
    * when nobody weighs anything. */
  lemma ElectionMeaning(vs: seq<ActiveValidator>, seed: nat, i: nat)
    requires i < |vs| && DistinctAddresses(vs)
    ensures TotalWeight(vs) > 0 ==>
      (Proposer(vs, seed) == Some(vs[i].address) <==>
        WeightBefore(vs, i) <= seed % TotalWeight(vs) < WeightBefore(vs, i) + vs[i].weight)
    ensures TotalWeight(vs) == 0 ==> Proposer(vs, seed) == Some(vs[0].address)
  {
    if TotalWeight(vs) > 0 {
      ResidueDecides(vs, seed);
      ElectedIff(vs, seed % TotalWeight(vs), i);
      hide Proposer;
    }
  }

  // ---------------------------------------------------------------- fallback

  function FirstOther(vs: seq<ActiveValidator>, primary: Address): Option<Address> {
    if vs == [] then None
    else if vs[0].address != primary then Some(vs[0].address)
    else FirstOther(vs[1..], primary)
  }

  function Fallback(vs: seq<ActiveValidator>, seed: nat): Option<Address> {
    if |vs| < 2 then None else FirstOther(Sort(vs), Proposer(vs, seed).value)
  }

  method ElectFallbackProposer(vs: seq<ActiveValidator>, seed: nat) returns (r: Option<Address>)
    ensures r == Fallback(vs, seed)
  {
    if |vs| < 2 {
      return None;
    }
    var primary := ElectProposer(vs, seed);
    var sorted := Sort(vs);
    for i := 0 to |sorted|
      invariant FirstOther(sorted, primary.value) == FirstOther(sorted[i..], primary.value)
    {
      assert sorted[i..][1..] == sorted[i + 1..];
      if sorted[i].address != primary.value {
        return Some(sorted[i].address);
      }
    }
    return None;
  }

  /** `best` outranks every entry of the list that is not the primary's. */
  ghost predicate BestOther(vs: seq<ActiveValidator>, primary: Address, best: ActiveValidator) {
    && best in vs && best.address != primary
    && forall v :: v in vs && v.address != primary ==> BeforeOrTied(best, v)
  }

  lemma {:induction false} FirstOtherIsBest(vs: seq<ActiveValidator>, primary: Address)
    requires Sorted(vs)
    ensures FirstOther(vs, primary) == None <==> forall v :: v in vs ==> v.address == primary
    ensures FirstOther(vs, primary).Some? ==>
      exists best :: BestOther(vs, primary, best) && best.address == FirstOther(vs, primary).value
  {
    if vs != [] {
      if vs[0].address != primary {
        assert BestOther(vs, primary, vs[0]);
      } else {
        FirstOtherIsBest(vs[1..], primary);
        assert forall v :: v in vs <==> v == vs[0] || v in vs[1..];
        if FirstOther(vs, primary).Some? {
          var best :| BestOther(vs[1..], primary, best) && best.address == FirstOther(vs, primary).value;
          assert BestOther(vs, primary, best);
        }
      }
    }
  }

  /** The fallback exists, differs from the primary, and outranks every other validator. */
  lemma FallbackIsBestOther(vs: seq<ActiveValidator>, seed: nat)
    requires |vs| >= 2 && DistinctAddresses(vs)
    ensures Fallback(vs, seed).Some?
    ensures Fallback(vs, seed) != Proposer(vs, seed)
    ensures exists best ::
      BestOther(vs, Proposer(vs, seed).value, best) && best.address == Fallback(vs, seed).value
  {
    var primary := Proposer(vs, seed).value;
    SameMembers(vs, Sort(vs));
    FirstOtherIsBest(Sort(vs), primary);
    var other := if vs[0].address == primary then vs[1] else vs[0];
    assert other in Sort(vs) && other.address != primary;
    var best :| BestOther(Sort(vs), primary, best) && best.address == FirstOther(Sort(vs), primary).value;
    assert BestOther(vs, primary, best);
  }

  /** Given who the primary is, the order in which the validators are listed does not matter. */
  lemma FallbackIgnoresOrder(vs: seq<ActiveValidator>, ws: seq<ActiveValidator>, seed: nat, seed': nat)
    requires multiset(vs) == multiset(ws) && DistinctAddresses(vs)
    requires Proposer(vs, seed) == Proposer(ws, seed')
    ensures Fallback(vs, seed) == Fallback(ws, seed')
  {
    SameMembers(vs, ws);
    if |vs| >= 2 {
      DistinctUnderReordering(vs, Sort(vs));
      SortedIsUnique(Sort(vs), Sort(ws));
    }
  }

  /** Who the fallback is: among the others the heaviest, and the lowest address among those. */
  lemma FallbackMeaning(vs: seq<ActiveValidator>, seed: nat, i: nat)
    requires i < |vs| && DistinctAddresses(vs)
    ensures Fallback(vs, seed) == Some(vs[i].address) <==>
      && Proposer(vs, seed) != Some(vs[i].address)
      && forall j :: 0 <= j < |vs| && j != i && Proposer(vs, seed) != Some(vs[j].address) ==>
        vs[i].weight > vs[j].weight || (vs[i].weight == vs[j].weight && vs[i].address < vs[j].address)
  {
    if |vs| >= 2 {
      FallbackIsBestOther(vs, seed);
      var primary := Proposer(vs, seed).value;
      var best :| BestOther(vs, primary, best) && best.address == Fallback(vs, seed).value;
      var k :| 0 <= k < |vs| && vs[k] == best;
      hide Proposer, Fallback;
      assert vs[i] in vs;
      assert forall j :: 0 <= j < |vs| ==> vs[j] in vs;
    } else {
      assert Proposer(vs, seed) == Some(vs[0].address);
    }
  }
}
