/** The active validator set: weights, and the top validators of the stakes table. */
module ValidatorSet {
  import opened Common
  import opened ConsensusTypes
  import opened Ranking
  import Slashing

  /** One reputation attestation: who it is about, and the (signed 16-bit) score. */
  datatype Attestation = Attestation(subject: Address, score: int)

  // ---------------------------------------------------------------- agent scores

  function RawScore(reputation: seq<Attestation>, a: Address): int {
    if reputation == [] then 0
    else (if reputation[0].subject == a then reputation[0].score else 0) + RawScore(reputation[1..], a)
  }

  function Clamp(x: int): nat {
    if x < 0 then 0 else if x > 10_000 then 10_000 else x
  }

  ghost function Subjects(reputation: seq<Attestation>): set<Address> {
    set att | att in reputation :: att.subject
  }

  ghost function Scores(reputation: seq<Attestation>): (r: map<Address, nat>)
    ensures forall a :: Get(r, a) <= 10_000
  {
    map a | a in Subjects(reputation) :: Clamp(RawScore(reputation, a))
  }

  lemma {:induction false} RawScoreExtends(front: seq<Attestation>, att: Attestation, a: Address)
    ensures RawScore(front + [att], a) == RawScore(front, a) + if att.subject == a then att.score else 0
  {
    if front == [] {
      assert [att][1..] == [];
    } else {
      RawScoreExtends(front[1..], att, a);
      assert (front + [att])[1..] == front[1..] + [att];
    }
  }

  method AggregateAgentScores(reputation: seq<Attestation>) returns (scores: map<Address, nat>)
    ensures scores == Scores(reputation)
  {
    var sums: map<Address, int> := map[];
    for i := 0 to |reputation|
      invariant sums.Keys == Subjects(reputation[..i])
      invariant forall a :: a in sums ==> sums[a] == RawScore(reputation[..i], a)
      invariant forall a :: a !in sums ==> RawScore(reputation[..i], a) == 0
    {
      var att := reputation[i];
      assert reputation[..i + 1] == reputation[..i] + [att];
      forall a
        ensures RawScore(reputation[..i + 1], a) == RawScore(reputation[..i], a) + if att.subject == a then att.score else 0
      {
        RawScoreExtends(reputation[..i], att, a);
      }
      sums := sums[att.subject := (if att.subject in sums then sums[att.subject] else 0) + att.score];
    }
    assert reputation[..|reputation|] == reputation;
    return map a | a in sums :: Clamp(sums[a]);
  }

  // ---------------------------------------------------------------- weights

  /** The highest score, and at least one. */
  ghost predicate IsMaxScore(scores: map<Address, nat>, m: nat) {
    && m >= 1 && (m == 1 || exists a :: a in scores && scores[a] == m)
    && forall a :: a in scores ==> scores[a] <= m
  }

  ghost function MaxScore(scores: map<Address, nat>): (m: nat)
    ensures IsMaxScore(scores, m)
  {
    if scores == map[] then 1
    else
      var a :| a in scores;
      var rest := MaxScore(scores - {a});
      assert rest != 1 ==> exists b :: b in scores - {a} && (scores - {a})[b] == rest && scores[b] == rest;
      assert forall b :: b in scores && b != a ==> b in scores - {a} && (scores - {a})[b] == scores[b];
      if scores[a] > rest then scores[a] else rest
  }

  method FindMaxScore(scores: map<Address, nat>) returns (m: nat)
    ensures m == MaxScore(scores)
  {
    m := 1;
    var pending := scores.Keys;
    while pending != {}
      invariant pending <= scores.Keys && m >= 1
      invariant m == 1 || exists a :: a in scores && scores[a] == m
      invariant forall a :: a in scores.Keys - pending ==> scores[a] <= m
      decreases |pending|
    {
      var a :| a in pending;
      pending := pending - {a};
      if scores[a] > m {
        m := scores[a];
      }
    }
  }

  /** Stake and score, each normalised to basis points, mixed by the configuration; at least one. */
  function Weight(stake: nat, totalStake: nat, score: nat, maxScore: nat, config: WeightConfig): nat
    requires maxScore >= 1
  {
    var normStake := if totalStake > 0 then stake * 10_000 / totalStake else 0;
    var normScore := score * 10_000 / maxScore;
    var w := (normStake * config.stakeBps + normScore * config.scoreBps) / 10_000;
    if w >= 1 then w else 1
  }

  lemma ShareOfTenThousand(part: nat, whole: nat)
    requires part <= whole && whole > 0
    ensures part * 10_000 / whole <= 10_000
  {
    assert part * 10_000 <= whole * 10_000;
    assert part * 10_000 / whole <= whole * 10_000 / whole by { DivMonotone(part * 10_000, whole * 10_000, whole); }
    assert whole * 10_000 / whole == 10_000;
  }

  lemma DivMonotone(a: nat, b: nat, d: nat)
    requires a <= b && d > 0
    ensures a / d <= b / d
  {
    var x, y := a / d, b / d;
    assert x * d <= a && b < (y + 1) * d;
    CancelFactor(x, y + 1, d);
  }

  lemma CancelFactor(x: nat, y: nat, d: nat)
    requires x * d < y * d
    ensures x < y
  {
    assert (x - y) * d < 0;
  }

  /** Every weight lies between 1 and the configured total of basis points. */
  lemma WeightInRange(stake: nat, totalStake: nat, score: nat, maxScore: nat, config: WeightConfig)
    requires stake <= totalStake && score <= maxScore && maxScore >= 1
    requires config.stakeBps + config.scoreBps == 10_000
    ensures 1 <= Weight(stake, totalStake, score, maxScore, config) <= 10_000
  {
    var normStake := if totalStake > 0 then stake * 10_000 / totalStake else 0;
    var normScore := score * 10_000 / maxScore;
    if totalStake > 0 {
      ShareOfTenThousand(stake, totalStake);
    }
    ShareOfTenThousand(score, maxScore);
    assert normStake * config.stakeBps <= 10_000 * config.stakeBps;
    assert normScore * config.scoreBps <= 10_000 * config.scoreBps;
  }

  // ---------------------------------------------------------------- the active set

  /** What one recalculation reads. `jail` is absent at genesis, when nobody is excluded. */
  datatype Inputs = Inputs(
    stakes: map<Address, nat>,
    reputation: seq<Attestation>,
    jail: Option<Slashing.State>,
    height: nat,
    config: WeightConfig)
  {
    predicate Admits(a: Address) {
      a in stakes && stakes[a] >= MIN_STAKE && (jail.Some? ==> !jail.value.IsJailed(a, height))
    }

    ghost function Eligible(): set<Address> {
      set a | a in stakes && Admits(a)
    }

    ghost function Entry(a: Address): ActiveValidator
      requires a in stakes
    {
      var scores := Scores(reputation);
      ActiveValidator(a, stakes[a], Get(scores, a),
                      Weight(stakes[a], Total(stakes), Get(scores, a), MaxScore(scores), config))
    }

    /** `vs` lists the entry of each of `addresses` once, in any order. */
    ghost predicate Lists(vs: seq<ActiveValidator>, addresses: set<Address>) {
      && DistinctAddresses(vs)
      && (forall i :: 0 <= i < |vs| ==> vs[i].address in addresses)
      && (forall a :: a in addresses ==> a in stakes && Entry(a) in vs)
      && (forall i :: 0 <= i < |vs| ==> vs[i].address in stakes && vs[i] == Entry(vs[i].address))
    }

    ghost function Listing(addresses: set<Address>): (vs: seq<ActiveValidator>)
      requires addresses <= stakes.Keys
      ensures Lists(vs, addresses)
    {
      if addresses == {} then []
      else
        var a :| a in addresses;
        var rest := Listing(addresses - {a});
        ListOneMore(this, rest, addresses - {a}, a);
        assert addresses - {a} + {a} == addresses;
        rest + [Entry(a)]
    }

    /** The validator set a recalculation arrives at. */
    ghost function Active(): seq<ActiveValidator> {
      var ranked := Sort(Listing(Eligible()));
      if ranked != [] then ranked[..if |ranked| <= MAX_VALIDATORS then |ranked| else MAX_VALIDATORS]
      else if stakes == map[] then []
      else
        var last := Greatest(stakes.Keys);
        [ActiveValidator(last, stakes[last], 0, 1)]
    }
  }

  ghost function Greatest(s: set<Address>): (m: Address)
    requires s != {}
    ensures m in s && forall a :: a in s ==> a <= m
  {
    var a :| a in s;
    if s == {a} then a
    else
      assert forall b :: b in s && b != a ==> b in s - {a};
      var m := Greatest(s - {a});
      if a > m then a else m
  }

  lemma ListedIff(inp: Inputs, vs: seq<ActiveValidator>, addresses: set<Address>, v: ActiveValidator)
    requires inp.Lists(vs, addresses)
    ensures v in vs <==> v.address in addresses && v == inp.Entry(v.address)
    ensures multiset(vs)[v] == if v in vs then 1 else 0
  {
    if v in vs {
      var i :| 0 <= i < |vs| && vs[i] == v;
      OccursOnce(vs, i);
    }
  }

  /** Two listings of the same addresses are reorderings of each other. */
  lemma ListingsAgree(inp: Inputs, a: seq<ActiveValidator>, b: seq<ActiveValidator>, addresses: set<Address>)
    requires inp.Lists(a, addresses) && inp.Lists(b, addresses)
    ensures multiset(a) == multiset(b)
  {
    forall v
      ensures multiset(a)[v] == multiset(b)[v]
    {
      ListedIff(inp, a, addresses, v);
      ListedIff(inp, b, addresses, v);
    }
  }

  lemma EligibleAreStaked(inp: Inputs)
    ensures inp.Eligible() <= inp.stakes.Keys
  {
  }

  lemma ListedAreDistinct(inp: Inputs, vs: seq<ActiveValidator>, addresses: set<Address>)
    requires inp.Lists(vs, addresses)
    ensures DistinctAddresses(vs)
  {
  }

  lemma NothingListed(inp: Inputs)
    ensures inp.Lists([], {})
  {
  }

  lemma ListOneMore(inp: Inputs, vs: seq<ActiveValidator>, addresses: set<Address>, a: Address)
    requires inp.Lists(vs, addresses) && a in inp.stakes && a !in addresses
    ensures inp.Lists(vs + [inp.Entry(a)], addresses + {a})
  {
    var longer := vs + [inp.Entry(a)];
    assert longer[|vs|] == inp.Entry(a);
    forall b | b in addresses
      ensures inp.Entry(b) in longer
    {
      assert inp.Entry(b) in vs;
    }
  }

  class ValidatorSet {
    var active: seq<ActiveValidator>
    var epoch: nat
    const config: WeightConfig

    constructor ()
      ensures active == [] && epoch == 0 && config == COLD_START
    {
      active, epoch, config := [], 0, COLD_START;
    }

    /** The weighted entries of all eligible validators. */
    method CollectWeighted(stakes: map<Address, nat>, reputation: seq<Attestation>, jail: Option<Slashing.State>, height: nat)
      returns (weighted: seq<ActiveValidator>)
      ensures var inp := Inputs(stakes, reputation, jail, height, config); inp.Lists(weighted, inp.Eligible())
    {
      hide Weight, Inputs.Lists;
      ghost var inp := Inputs(stakes, reputation, jail, height, config);
      var scores := AggregateAgentScores(reputation);
      var maxScore := FindMaxScore(scores);
      var totalStake := SumValues(stakes);
      weighted := [];
      var pending := stakes.Keys;
      assert inp.Eligible() - pending == {};
      NothingListed(inp);
      while pending != {}
        invariant pending <= stakes.Keys
        invariant inp.Lists(weighted, inp.Eligible() - pending)
        decreases |pending|
      {
        var a :| a in pending;
        ghost var done := inp.Eligible() - pending;
        pending := pending - {a};
        if stakes[a] >= MIN_STAKE && (jail.Some? ==> !jail.value.IsJailed(a, height)) {
          var v := ActiveValidator(a, stakes[a], Get(scores, a),
                                   Weight(stakes[a], totalStake, Get(scores, a), maxScore, config));
          assert inp.Eligible() - pending == done + {a} && v == inp.Entry(a);
          ListOneMore(inp, weighted, done, a);
          weighted := weighted + [v];
        } else {
          assert inp.Eligible() - pending == done;
        }
      }
      assert inp.Eligible() - pending == inp.Eligible();
    }

    /** The order in which the stakes are visited does not show in the result. */
    method RecalculateActive(stakes: map<Address, nat>, reputation: seq<Attestation>, jail: Option<Slashing.State>, height: nat)
      modifies this
      ensures active == Inputs(stakes, reputation, jail, height, config).Active()
      ensures epoch == old(epoch) + 1
    {
      hide Inputs.Eligible, Inputs.Listing, Inputs.Lists, Sort, Greatest;
      ghost var inp := Inputs(stakes, reputation, jail, height, config);
      var weighted := CollectWeighted(stakes, reputation, jail, height);
      EligibleAreStaked(inp);
      ListedAreDistinct(inp, weighted, inp.Eligible());
      ListingsAgree(inp, weighted, inp.Listing(inp.Eligible()), inp.Eligible());
      SortIsCanonical(weighted, inp.Listing(inp.Eligible()));
      weighted := Sort(weighted);
      if |weighted| > MAX_VALIDATORS {
        weighted := weighted[..MAX_VALIDATORS];
      }
      active := weighted;
      if active == [] && stakes != map[] {
        var last := FindGreatest(stakes.Keys);
        active := [ActiveValidator(last, stakes[last], 0, 1)];
      }
      epoch := epoch + 1;
    }
  }

  method FindGreatest(s: set<Address>) returns (m: Address)
    requires s != {}
    ensures m == Greatest(s)
  {
    m :| m in s;
    var pending := s - {m};
    while pending != {}
      invariant pending <= s && m in s
      invariant forall a :: a in s ==> a in pending || a <= m
      decreases |pending|
    {
      var a :| a in pending;
      pending := pending - {a};
      if a > m {
        m := a;
      }
    }
  }

  lemma SortIsCanonical(a: seq<ActiveValidator>, b: seq<ActiveValidator>)
    requires multiset(a) == multiset(b) && DistinctAddresses(a)
    ensures Sort(a) == Sort(b)
  {
    DistinctUnderReordering(a, Sort(a));
    SortedIsUnique(Sort(a), Sort(b));
  }

  // ---------------------------------------------------------------- what the active set is

  lemma RankedEligible(inp: Inputs)
    ensures var ranked := Sort(inp.Listing(inp.Eligible()));
      Sorted(ranked) && inp.Lists(ranked, inp.Eligible())
  {
    var listing := inp.Listing(inp.Eligible());
    SameMembers(listing, Sort(listing));
    DistinctUnderReordering(listing, Sort(listing));
    forall i | 0 <= i < |Sort(listing)|
      ensures Sort(listing)[i].address in inp.Eligible() && Sort(listing)[i] == inp.Entry(Sort(listing)[i].address)
    {
      assert Sort(listing)[i] in listing;
    }
  }

  /** `act` consists of entries of eligible validators, best first, each once. */
  ghost predicate BestFirst(inp: Inputs, act: seq<ActiveValidator>) {
    && DistinctAddresses(act) && Sorted(act)
    && forall i :: 0 <= i < |act| ==> act[i].address in inp.Eligible() && act[i] == inp.Entry(act[i].address)
  }

  /** Whoever is eligible but not in `act` ranks after everyone who is. */
  ghost predicate OutranksTheRest(inp: Inputs, act: seq<ActiveValidator>) {
    forall a, i :: a in inp.Eligible() && inp.Entry(a) !in act && 0 <= i < |act| ==> Before(act[i], inp.Entry(a))
  }

  /** The active set is the first MAX_VALIDATORS of the eligible, and all of them when they are fewer. */
  lemma ActiveIsTop(inp: Inputs)
    requires inp.Eligible() != {}
    ensures BestFirst(inp, inp.Active()) && OutranksTheRest(inp, inp.Active())
    ensures 1 <= |inp.Active()| <= MAX_VALIDATORS
    ensures |inp.Active()| < MAX_VALIDATORS ==> forall a :: a in inp.Eligible() ==> inp.Entry(a) in inp.Active()
  {
    RankedEligible(inp);
    var ranked := Sort(inp.Listing(inp.Eligible()));
    var e :| e in inp.Eligible();
    assert inp.Entry(e) in ranked;
    TopOfRanked(inp, ranked, |inp.Active()|);
  }

  lemma TopOfRanked(inp: Inputs, ranked: seq<ActiveValidator>, n: nat)
    requires Sorted(ranked) && inp.Lists(ranked, inp.Eligible()) && n <= |ranked|
    ensures BestFirst(inp, ranked[..n]) && OutranksTheRest(inp, ranked[..n])
  {
    forall a, i | a in inp.Eligible() && inp.Entry(a) !in ranked[..n] && 0 <= i < n
      ensures Before(ranked[i], inp.Entry(a))
    {
      LeftOutRanksAfter(ranked, n, inp.Entry(a), i);
    }
  }

  lemma LeftOutRanksAfter(ranked: seq<ActiveValidator>, n: nat, v: ActiveValidator, i: nat)
    requires Sorted(ranked) && DistinctAddresses(ranked)
    requires i < n <= |ranked| && v in ranked && v !in ranked[..n]
    ensures n < |ranked| && Before(ranked[i], v)
  {
    assert ranked == ranked[..n] + ranked[n..];
    assert v in ranked[n..];
    var j :| n <= j < |ranked| && ranked[j] == v;
    assert BeforeOrTied(ranked[i], ranked[j]) && ranked[i].address != ranked[j].address;
  }

  /** Every active weight is between 1 and 10000 when the configured shares add up to 10000. */
  lemma ActiveWeightsInRange(inp: Inputs, i: nat)
    requires inp.config.stakeBps + inp.config.scoreBps == 10_000 && i < |inp.Active()|
    ensures 1 <= inp.Active()[i].weight <= 10_000
  {
    if inp.Eligible() != {} {
      ActiveIsTop(inp);
      var a := inp.Active()[i].address;
      var scores := Scores(inp.reputation);
      TotalBounds(inp.stakes, a);
      assert Get(scores, a) <= MaxScore(scores);
      WeightInRange(inp.stakes[a], Total(inp.stakes), Get(scores, a), MaxScore(scores), inp.config);
    } else {
      RankedEligible(inp);
    }
  }

  /** Some validator stays active as long as anyone has a stake. */
  lemma ActiveIsNonEmpty(inp: Inputs)
    ensures inp.Active() == [] <==> inp.stakes == map[]
    ensures DistinctAddresses(inp.Active()) && Addresses(inp.Active()) <= inp.stakes.Keys
  {
    RankedEligible(inp);
    if inp.Eligible() != {} {
      ActiveIsTop(inp);
    }
  }

  // ---------------------------------------------------------------- who serves, and with which weight

  /** Enough stake, and not jailed. */
  predicate MayServe(inp: Inputs, a: Address) {
    && a in inp.stakes && inp.stakes[a] >= 10_000_000_000_000
    && !(inp.jail.Some? && a in inp.jail.value.jailed && inp.height < inp.jail.value.jailed[a])
  }

  /** The weight is 70 percent the share of all stake and 30 percent the score's share of the best one, both in whole basis
    * points, and at least one. */
  ghost predicate Weighs(inp: Inputs, stake: nat, score: nat, weight: nat) {
    var total, best := Total(inp.stakes), MaxScore(Scores(inp.reputation));
    exists s: nat, r: nat ::
      && InBasisPoints(stake, total, s) && InBasisPoints(score, best, r)
      && weight == Max((7 * s + 3 * r) / 10, 1)
  }

  predicate InBasisPoints(part: nat, whole: nat, bps: nat) {
    bps * whole <= part * 10_000 < (bps + 1) * whole
  }

  function Max(a: int, b: int): int {
    if a >= b then a else b
  }

  lemma RoundedDown(part: nat, whole: nat)
    requires whole > 0
    ensures InBasisPoints(part, whole, part * 10_000 / whole)
  {
    assert part * 10_000 == part * 10_000 / whole * whole + part * 10_000 % whole;
  }

  lemma Mixed(s: nat, r: nat)
    ensures (s * 7000 + r * 3000) / 10_000 == (7 * s + 3 * r) / 10
  {
    assert s * 7000 + r * 3000 == 1000 * (7 * s + 3 * r);
  }

  lemma WeightMixes(stake: nat, total: nat, score: nat, best: nat) returns (s: nat, r: nat)
    requires total > 0 && best > 0
    ensures InBasisPoints(stake, total, s) && InBasisPoints(score, best, r)
    ensures Weight(stake, total, score, best, COLD_START) == Max((7 * s + 3 * r) / 10, 1)
  {
    s, r := stake * 10_000 / total, score * 10_000 / best;
    RoundedDown(stake, total);
    RoundedDown(score, best);
    hide InBasisPoints;
    Mixed(s, r);
  }

  lemma EntryWeighs(inp: Inputs, a: Address)
    requires inp.config == COLD_START && MayServe(inp, a)
    ensures Weighs(inp, inp.stakes[a], Get(Scores(inp.reputation), a), inp.Entry(a).weight)
  {
    hide InBasisPoints, Weight, Max;
    TotalBounds(inp.stakes, a);
    var s, r := WeightMixes(inp.stakes[a], Total(inp.stakes), Get(Scores(inp.reputation), a), MaxScore(Scores(inp.reputation)));
  }

  /** A score is the sum of all that was attested of the subject, cut off at zero and at ten thousand. */
  lemma ScoreMeaning(front: seq<Attestation>, att: Attestation, a: Address)
    ensures var sum := RawScore(front, a) + if att.subject == a then att.score else 0;
      Get(Scores(front + [att]), a) == if sum < 0 then 0 else if sum > 10_000 then 10_000 else sum
  {
    RawScoreExtends(front, att, a);
    if a !in Subjects(front + [att]) {
      assert att in front + [att];
      NeverAttested(front, a);
    }
  }

  lemma {:induction false} NeverAttested(reputation: seq<Attestation>, a: Address)
    requires a !in Subjects(reputation)
    ensures RawScore(reputation, a) == 0
  {
    if reputation != [] {
      assert reputation[0] in reputation;
      assert Subjects(reputation[1..]) <= Subjects(reputation);
      NeverAttested(reputation[1..], a);
    }
  }

  predicate RanksAhead(v: ActiveValidator, w: ActiveValidator) {
    v.weight > w.weight || (v.weight == w.weight && v.address < w.address)
  }

  lemma EligibleIff(inp: Inputs)
    ensures forall a :: a in inp.Eligible() <==> MayServe(inp, a)
  {
  }

  /** Exactly who is active while anybody may serve: at most 21 validators, heaviest first and by address among equals, and nobody
    * who may serve is left out for one that ranks behind. */
  lemma ActiveMeaning(inp: Inputs, a: Address)
    requires inp.config == COLD_START && exists b :: MayServe(inp, b)
    ensures var act := inp.Active();
      && 1 <= |act| <= 21
      && (forall i :: 0 <= i < |act| ==>
            && MayServe(inp, act[i].address) && act[i].stake == inp.stakes[act[i].address]
            && act[i].agentScore == Get(Scores(inp.reputation), act[i].address)
            && Weighs(inp, act[i].stake, act[i].agentScore, act[i].weight))
      && (forall i, j :: 0 <= i < j < |act| ==> RanksAhead(act[i], act[j]))
      && (MayServe(inp, a) && a !in Addresses(act) ==> |act| == 21 && forall i :: 0 <= i < 21 ==> RanksAhead(act[i], inp.Entry(a)))
  {
    EligibleIff(inp);
    ActiveIsTop(inp);
    var act := inp.Active();
    hide Weighs, MayServe;
    forall i | 0 <= i < |act|
      ensures Weighs(inp, act[i].stake, act[i].agentScore, act[i].weight)
    {
      EntryWeighs(inp, act[i].address);
    }
    if MayServe(inp, a) && inp.Entry(a) in act {
      var i :| 0 <= i < |act| && act[i] == inp.Entry(a);
      assert act[i].address == a;
    }
  }

  /** When nobody may serve, the staker with the greatest address stays, with weight one. The source means to keep the one with
    * the most stake; it does exactly when no lower address has more. */
  lemma LastResort(inp: Inputs)
    requires inp.stakes != map[] && forall b :: !MayServe(inp, b)
    ensures var act := inp.Active();
      && |act| == 1 && act[0].weight == 1 && act[0].agentScore == 0
      && act[0].address in inp.stakes && act[0].stake == inp.stakes[act[0].address]
      && (forall b :: b in inp.stakes ==> b <= act[0].address)
      && ((forall b :: b in inp.stakes ==> inp.stakes[b] <= act[0].stake) <==>
          !(exists b :: b in inp.stakes && b < act[0].address && inp.stakes[b] > act[0].stake))
  {
    EligibleIff(inp);
    RankedEligible(inp);
    assert Sort(inp.Listing(inp.Eligible())) == [];
    var last := Greatest(inp.stakes.Keys);
    assert forall b :: b in inp.stakes && inp.stakes[b] > inp.stakes[last] ==> b < last;
  }

  lemma LastResortMayBePoorer()
    ensures exists inp: Inputs ::
      |inp.Active()| == 1 && exists b :: b in inp.stakes && inp.stakes[b] > inp.Active()[0].stake
  {
    hide Inputs.Active;
    var inp := Inputs(map[1 := 2, 2 := 1], [], None, 0, COLD_START);
    Poorer(inp);
  }

  lemma Poorer(inp: Inputs)
    requires inp.stakes == map[1 := 2, 2 := 1]
    ensures |inp.Active()| == 1 && inp.stakes[1] > inp.Active()[0].stake
  {
    hide Inputs.Active;
    assert inp.stakes.Keys == {1, 2};
    LastResort(inp);
    assert inp.Active()[0].address == 2 by { assert 2 in inp.stakes; }
  }
}
