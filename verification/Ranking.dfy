/** The order "weight descending, then address ascending", and sorting by it. */
module Ranking {
  import opened ConsensusTypes

  predicate Before(a: ActiveValidator, b: ActiveValidator) {
    a.weight > b.weight || (a.weight == b.weight && a.address < b.address)
  }

  predicate BeforeOrTied(a: ActiveValidator, b: ActiveValidator) {
    a.weight > b.weight || (a.weight == b.weight && a.address <= b.address)
  }

  ghost predicate Sorted(vs: seq<ActiveValidator>) {
    forall i, j :: 0 <= i < j < |vs| ==> BeforeOrTied(vs[i], vs[j])
  }

  ghost predicate DistinctAddresses(vs: seq<ActiveValidator>) {
    forall i, j :: 0 <= i < j < |vs| ==> vs[i].address != vs[j].address
  }

  /** Stable insertion: after every entry that ranks before or ties. */
  function Insert(v: ActiveValidator, vs: seq<ActiveValidator>): seq<ActiveValidator> {
    if vs == [] then [v]
    else if Before(v, vs[0]) then [v] + vs
    else [vs[0]] + Insert(v, vs[1..])
  }

  lemma {:induction false} InsertAdds(v: ActiveValidator, vs: seq<ActiveValidator>)
    ensures multiset(Insert(v, vs)) == multiset(vs) + multiset{v}
  {
    if vs != [] && !Before(v, vs[0]) {
      InsertAdds(v, vs[1..]);
      assert vs == [vs[0]] + vs[1..];
    }
  }

  lemma {:induction false} InsertKeepsSorted(v: ActiveValidator, vs: seq<ActiveValidator>)
    requires Sorted(vs)
    ensures Sorted(Insert(v, vs))
  {
    if vs != [] && !Before(v, vs[0]) {
      InsertKeepsSorted(v, vs[1..]);
      InsertAdds(v, vs[1..]);
      var rest := Insert(v, vs[1..]);
      forall j | 0 <= j < |rest|
        ensures BeforeOrTied(vs[0], rest[j])
      {
        assert rest[j] in multiset(rest);
        assert rest[j] == v || rest[j] in vs[1..];
      }
    }
  }

  /** The library's stable sort, by its result. */
  function Sort(vs: seq<ActiveValidator>): (r: seq<ActiveValidator>)
    ensures multiset(r) == multiset(vs) && Sorted(r)
  {
    if vs == [] then []
    else
      var last := |vs| - 1;
      assert vs == vs[..last] + [vs[last]];
      InsertAdds(vs[last], Sort(vs[..last]));
      InsertKeepsSorted(vs[last], Sort(vs[..last]));
      Insert(vs[last], Sort(vs[..last]))
  }

  lemma SameMembers(a: seq<ActiveValidator>, b: seq<ActiveValidator>)
    requires multiset(a) == multiset(b)
    ensures |a| == |b| && forall x :: x in a <==> x in b
  {
    assert |a| == |multiset(a)| && |b| == |multiset(b)|;
    assert forall x :: x in a <==> x in multiset(a);
    assert forall x :: x in b <==> x in multiset(b);
  }

  lemma SortedHeadsAgree(a: seq<ActiveValidator>, b: seq<ActiveValidator>)
    requires multiset(a) == multiset(b) && Sorted(a) && Sorted(b) && DistinctAddresses(a) && a != []
    ensures b != [] && a[0] == b[0]
  {
    SameMembers(a, b);
    assert a[0] in b && b[0] in a;
    var i :| 0 <= i < |a| && a[i] == b[0];
    var j :| 0 <= j < |b| && b[j] == a[0];
    assert BeforeOrTied(a[0], a[i]) || i == 0;
    assert BeforeOrTied(b[0], b[j]) || j == 0;
  }

  /** With distinct addresses the sorted order is unique: it depends on the members alone. */
  lemma {:induction false} SortedIsUnique(a: seq<ActiveValidator>, b: seq<ActiveValidator>)
    requires multiset(a) == multiset(b) && Sorted(a) && Sorted(b) && DistinctAddresses(a)
    ensures a == b
    decreases |a|
  {
    SameMembers(a, b);
    if a != [] {
      SortedHeadsAgree(a, b);
      assert a == [a[0]] + a[1..] && b == [b[0]] + b[1..];
      assert multiset(a[1..]) == multiset(a) - multiset{a[0]};
      assert multiset(b[1..]) == multiset(b) - multiset{b[0]};
      SortedIsUnique(a[1..], b[1..]);
    }
  }

  /** Distinctness does not depend on the order of the list. */
  lemma DistinctUnderReordering(a: seq<ActiveValidator>, b: seq<ActiveValidator>)
    requires multiset(a) == multiset(b) && DistinctAddresses(a)
    ensures DistinctAddresses(b)
  {
    SameMembers(a, b);
    forall i, j | 0 <= i < j < |b|
      ensures b[i].address != b[j].address
    {
      assert b[i] in a && b[j] in a;
      var k :| 0 <= k < |a| && a[k] == b[i];
      var l :| 0 <= l < |a| && a[l] == b[j];
      if b[i].address == b[j].address {
        assert k == l;
        OccursTwice(b, i, j);
        OccursOnce(a, k);
      }
    }
  }

  lemma OccursTwice(b: seq<ActiveValidator>, i: nat, j: nat)
    requires i < j < |b| && b[i] == b[j]
    ensures multiset(b)[b[i]] >= 2
  {
    assert b == b[..j] + [b[j]] + b[j + 1..];
    assert b[i] in b[..j];
  }

  lemma OccursOnce(a: seq<ActiveValidator>, k: nat)
    requires DistinctAddresses(a) && k < |a|
    ensures multiset(a)[a[k]] == 1
  {
    assert a == a[..k] + [a[k]] + a[k + 1..];
    assert a[k] !in a[..k] && a[k] !in a[k + 1..];
  }
}
