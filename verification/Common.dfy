/** Shared vocabulary: results, finite sums over maps, fixed-width bounds. */
module Common {

  datatype Option<+T> = None | Some(value: T)

  datatype Result<+T, +E> = Ok(value: T) | Err(error: E)

  const U64_LIMIT: nat := 0x1_0000_0000_0000_0000
  const U128_LIMIT: nat := 0x1_0000_0000_0000_0000_0000_0000_0000_0000

  /** A missing key reads as zero, as `get(..).copied().unwrap_or(0)` does. */
  function Get<K>(m: map<K, nat>, k: K): nat {
    if k in m then m[k] else 0
  }

  /** Sum of all values of a map. */
  ghost function Total<K>(m: map<K, nat>): nat {
    if m == map[] then 0
    else
      var k :| k in m;
      m[k] + Total(m - {k})
  }

  /** The sum does not depend on the order in which keys are taken out. */
  lemma {:induction false} TotalTakeOut<K>(m: map<K, nat>, k: K)
    requires k in m
    ensures Total(m) == m[k] + Total(m - {k})
    decreases |m|
  {
    var c :| c in m && Total(m) == m[c] + Total(m - {c});
    if c != k {
      TotalTakeOut(m - {c}, k);
      TotalTakeOut(m - {k}, c);
      assert m - {c} - {k} == m - {k} - {c};
    }
  }

  lemma TotalUpdate<K>(m: map<K, nat>, k: K, v: nat)
    ensures Total(m[k := v]) == Total(m) - Get(m, k) + v
  {
    TotalTakeOut(m[k := v], k);
    if k in m {
      TotalTakeOut(m, k);
      assert m[k := v] - {k} == m - {k};
    } else {
      assert m[k := v] - {k} == m;
    }
  }

  lemma TotalBounds<K>(m: map<K, nat>, k: K)
    ensures Get(m, k) <= Total(m)
  {
    if k in m {
      TotalTakeOut(m, k);
    }
  }

  /** `values().sum()`. */
  method SumValues<K(==)>(m: map<K, nat>) returns (total: nat)
    ensures total == Total(m)
  {
    total := 0;
    var rest := m;
    while rest != map[]
      invariant total + Total(rest) == Total(m)
      decreases |rest|
    {
      var k :| k in rest;
      TotalTakeOut(rest, k);
      total := total + rest[k];
      rest := rest - {k};
    }
  }

  /** Entries that hold zero can be dropped. */
  lemma {:induction false} TotalDropZeros<K>(m: map<K, nat>, ks: set<K>)
    requires forall k :: k in ks && k in m ==> m[k] == 0
    ensures Total(m - ks) == Total(m)
    decreases |m|
  {
    if k :| k in ks && k in m {
      TotalTakeOut(m, k);
      TotalDropZeros(m - {k}, ks);
      assert m - {k} - ks == m - ks;
    } else {
      assert m - ks == m;
    }
  }

  predicate NoRepeats<T(==)>(xs: seq<T>) {
    forall i, j :: 0 <= i < j < |xs| ==> xs[i] != xs[j]
  }

  function Sum(xs: seq<nat>): nat {
    if xs == [] then 0 else xs[0] + Sum(xs[1..])
  }

  lemma HasLeast(s: set<nat>) returns (m: nat)
    requires s != {}
    ensures m in s && forall a :: a in s ==> m <= a
  {
    m :| m in s;
    if s != {m} {
      assert forall b :: b in s && b != m ==> b in s - {m};
      var n := HasLeast(s - {m});
      m := if m < n then m else n;
    }
  }

  function LeastOf(s: set<nat>): (m: nat)
    requires s != {}
    ensures m in s && forall a :: a in s ==> m <= a
  {
    assert exists m :: m in s && forall a :: a in s ==> m <= a by { var m := HasLeast(s); }
    var m :| m in s && forall a :: a in s ==> m <= a;
    m
  }

  method FindLeast(s: set<nat>) returns (m: nat)
    requires s != {}
    ensures m == LeastOf(s)
  {
    m :| m in s;
    var pending := s - {m};
    while pending != {}
      invariant pending <= s && m in s
      invariant forall a :: a in s ==> a in pending || m <= a
      decreases |pending|
    {
      var a :| a in pending;
      pending := pending - {a};
      if a < m {
        m := a;
      }
    }
  }

  /** The order in which a sorted map visits its keys. */
  function Ascending(s: set<nat>): (r: seq<nat>)
    ensures forall a :: a in r <==> a in s
    ensures forall i, j :: 0 <= i < j < |r| ==> r[i] < r[j]
  {
    if s == {} then []
    else
      var m := LeastOf(s);
      var rest := Ascending(s - {m});
      assert forall a :: a in [m] + rest <==> a == m || a in rest;
      [m] + rest
  }

  method InOrder(s: set<nat>) returns (r: seq<nat>)
    ensures r == Ascending(s)
  {
    hide Ascending, LeastOf;
    r := [];
    var rest := s;
    while rest != {}
      invariant Ascending(s) == r + Ascending(rest)
      decreases |rest|
    {
      var m := FindLeast(rest);
      AscendingStep(rest, r);
      r := r + [m];
      rest := rest - {m};
    }
    AscendingEnds();
  }

  lemma AscendingStep(s: set<nat>, r: seq<nat>)
    requires s != {}
    ensures r + Ascending(s) == r + [LeastOf(s)] + Ascending(s - {LeastOf(s)})
  {
    assert Ascending(s) == [LeastOf(s)] + Ascending(s - {LeastOf(s)});
  }

  lemma AscendingEnds()
    ensures Ascending({}) == []
  {
  }
}
