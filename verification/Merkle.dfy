/** The state-root Merkle tree: the level-by-level loop against recursive definitions. */
module Merkle {

  type Hash = nat

  const ZERO_HASH: Hash := 0

  /** The tagged hash: `leaf` prefixes its input with 0x00, `node` with 0x01. */
  datatype Hasher = Hasher(leaf: Hash -> Hash, node: (Hash, Hash) -> Hash) {

    /** No two leaves hash alike, and no two pairs of nodes do. */
    ghost predicate CollisionFree() {
      && (forall x, y :: leaf(x) == leaf(y) ==> x == y)
      && (forall a, b, c, d :: node(a, b) == node(c, d) ==> a == c && b == d)
    }

    function LeafLevel(leaves: seq<Hash>): (level: seq<Hash>)
      ensures |level| == |leaves|
      ensures forall i :: 0 <= i < |leaves| ==> level[i] == leaf(leaves[i])
    {
      seq(|leaves|, i requires 0 <= i < |leaves| => leaf(leaves[i]))
    }

    /** The level above: neighbours are paired, and an odd last element is paired with itself. */
    function Above(level: seq<Hash>): (next: seq<Hash>)
      ensures |next| == (|level| + 1) / 2
    {
      if level == [] then []
      else if |level| == 1 then [node(level[0], level[0])]
      else [node(level[0], level[1])] + Above(level[2..])
    }

    lemma {:induction false} AboveAt(level: seq<Hash>, i: nat)
      requires i < |Above(level)|
      ensures Above(level)[i] == node(level[2 * i], level[if 2 * i + 1 < |level| then 2 * i + 1 else 2 * i])
    {
      if i > 0 {
        AboveAt(level[2..], i - 1);
      }
    }

    /** What remains after combining levels until one hash is left. */
    function Climb(level: seq<Hash>): Hash
      requires level != []
      decreases |level|
    {
      if |level| == 1 then level[0] else Climb(Above(level))
    }

    function Root(leaves: seq<Hash>): Hash {
      if leaves == [] then ZERO_HASH else Climb(LeafLevel(leaves))
    }

    /** One pass over the chunks of a level. */
    method CombinePairs(current: seq<Hash>) returns (next: seq<Hash>)
      ensures next == Above(current)
    {
      next := [];
      var i := 0;
      while i < |current|
        invariant 0 <= i
        invariant Above(current) == next + Above(if i < |current| then current[i..] else [])
        decreases |current| - i
      {
        if i + 1 < |current| {
          next := next + [node(current[i], current[i + 1])];
        } else {
          next := next + [node(current[i], current[i])];
        }
        i := i + 2;
      }
    }

    /** The source's loop. It ends for every length, with the root. */
    method MerkleRoot(leaves: seq<Hash>) returns (root: Hash)
      ensures root == Root(leaves)
      ensures leaves == [] ==> root == 0
    {
      if leaves == [] {
        return ZERO_HASH;
      }
      var current := [];
      for i := 0 to |leaves|
        invariant current == LeafLevel(leaves)[..i]
      {
        current := current + [leaf(leaves[i])];
      }
      assert current == LeafLevel(leaves);
      while |current| > 1
        invariant current != [] && Climb(current) == Root(leaves)
        decreases |current|
      {
        current := CombinePairs(current);
      }
      return current[0];
    }

    // -------------------------------------------------------------- top-down tree, every length

    /** The height of the tree over n leaves. */
    function Height(n: nat): nat
      requires n >= 1
    {
      if n == 1 then 0 else 1 + Height((n + 1) / 2)
    }

    /** How many nodes the tree over n leaves has, h levels up. */
    function Width(n: nat, h: nat): nat {
      if h == 0 then n else (Width(n, h - 1) + 1) / 2
    }

    /** Node i of level h, defined from the top down over the leaves alone. */
    function Node(leaves: seq<Hash>, h: nat, i: nat): Hash
      requires i < Width(|leaves|, h)
      decreases h
    {
      if h == 0 then leaf(leaves[i])
      else
        node(Node(leaves, h - 1, 2 * i),
             Node(leaves, h - 1, if 2 * i + 1 < Width(|leaves|, h - 1) then 2 * i + 1 else 2 * i))
    }

    ghost predicate IsLevel(leaves: seq<Hash>, h: nat, level: seq<Hash>) {
      |level| == Width(|leaves|, h) && forall i :: 0 <= i < |level| ==> level[i] == Node(leaves, h, i)
    }

    lemma AboveIsLevel(leaves: seq<Hash>, h: nat, level: seq<Hash>)
      requires IsLevel(leaves, h, level)
      ensures IsLevel(leaves, h + 1, Above(level))
    {
      forall i | 0 <= i < |Above(level)|
        ensures Above(level)[i] == Node(leaves, h + 1, i)
      {
        AboveAt(level, i);
        var right := if 2 * i + 1 < |level| then 2 * i + 1 else 2 * i;
        assert level[2 * i] == Node(leaves, h, 2 * i) && level[right] == Node(leaves, h, right);
      }
    }

    /** From any level on, the loop arrives at the one node on top. */
    lemma {:induction false} ClimbIsTopNode(leaves: seq<Hash>, h: nat, level: seq<Hash>, top: nat)
      requires level != [] && IsLevel(leaves, h, level) && top == h + Height(|level|)
      ensures Width(|leaves|, top) == 1 && Climb(level) == Node(leaves, top, 0)
      decreases |level|
    {
      if |level| == 1 {
        assert level[0] == Node(leaves, h, 0);
      } else {
        AboveIsLevel(leaves, h, level);
        assert Height(|level|) == 1 + Height(|Above(level)|);
        ClimbIsTopNode(leaves, h + 1, Above(level), top);
      }
    }

    /** For every number of leaves, the loop computes the top-down tree. */
    lemma RootIsTopDown(leaves: seq<Hash>)
      requires leaves != []
      ensures Width(|leaves|, Height(|leaves|)) == 1
      ensures Root(leaves) == Node(leaves, Height(|leaves|), 0)
    {
      ClimbIsTopNode(leaves, 0, LeafLevel(leaves), Height(|leaves|));
    }

    // -------------------------------------------------------------- RFC 6962

    function Pow2(k: nat): (n: nat)
      ensures n >= 1
    {
      if k == 0 then 1 else 2 * Pow2(k - 1)
    }

    /** The largest power of two smaller than n. */
    function SplitPoint(n: nat): (k: nat)
      requires n > 1
      ensures 1 <= k < n <= 2 * k
    {
      if n == 2 then 1 else 2 * SplitPoint((n + 1) / 2)
    }

    /** The Merkle Tree Hash of section 2.1 of RFC 6962. */
    function Mth(leaves: seq<Hash>): Hash
      requires leaves != []
      decreases |leaves|
    {
      if |leaves| == 1 then leaf(leaves[0])
      else
        var k := SplitPoint(|leaves|);
        node(Mth(leaves[..k]), Mth(leaves[k..]))
    }

    lemma {:induction false} SplitOfPowerOfTwo(k: nat)
      requires k >= 1
      ensures SplitPoint(Pow2(k)) == Pow2(k - 1)
    {
      if k > 1 {
        SplitOfPowerOfTwo(k - 1);
        assert (Pow2(k) + 1) / 2 == Pow2(k - 1);
      }
    }

    lemma {:induction false} AboveHalves(a: seq<Hash>, b: seq<Hash>, m: nat)
      requires |a| == 2 * m
      ensures Above(a + b) == Above(a) + Above(b)
      decreases m
    {
      if m == 0 {
        assert a + b == b;
      } else {
        AboveHalves(a[2..], b, m - 1);
        assert (a + b)[2..] == a[2..] + b;
        assert Above(a + b) == [node(a[0], a[1])] + (Above(a[2..]) + Above(b));
      }
    }

    /** Two halves of 2^k nodes climb separately and meet at the top. */
    lemma {:induction false} ClimbHalves(a: seq<Hash>, b: seq<Hash>, k: nat)
      requires |a| == |b| == Pow2(k)
      ensures Climb(a + b) == node(Climb(a), Climb(b))
      decreases k
    {
      if k == 0 {
        assert Above(a + b) == [node(a[0], b[0])];
        assert Climb(Above(a + b)) == node(a[0], b[0]);
      } else {
        var m := Pow2(k - 1);
        assert |a| == 2 * m;
        AboveHalves(a, b, m);
        ClimbHalves(Above(a), Above(b), k - 1);
        assert Climb(a + b) == Climb(Above(a + b));
      }
    }

    lemma RootOfHalves(a: seq<Hash>, b: seq<Hash>, k: nat)
      requires |a| == |b| == Pow2(k)
      ensures Root(a + b) == node(Root(a), Root(b))
    {
      ClimbHalves(LeafLevel(a), LeafLevel(b), k);
      assert LeafLevel(a + b) == LeafLevel(a) + LeafLevel(b);
    }

    lemma MthOfHalves(a: seq<Hash>, b: seq<Hash>, k: nat)
      requires |a| == |b| == Pow2(k)
      ensures Mth(a + b) == node(Mth(a), Mth(b))
    {
      var whole := a + b;
      SplitOfPowerOfTwo(k + 1);
      assert |whole| == Pow2(k + 1) && SplitPoint(|whole|) == |a|;
      assert whole[..|a|] == a && whole[|a|..] == b;
      assert Mth(whole) == node(Mth(whole[..|a|]), Mth(whole[|a|..]));
    }

    /** Over 2^k leaves the loop computes the Merkle Tree Hash. */
    lemma {:induction false} RootIsMth(leaves: seq<Hash>, k: nat)
      requires |leaves| == Pow2(k)
      ensures Root(leaves) == Mth(leaves)
      decreases k
    {
      if k > 0 {
        var a, b := leaves[..Pow2(k - 1)], leaves[Pow2(k - 1)..];
        assert |a| == |b| == Pow2(k - 1) && leaves == a + b;
        RootIsMth(a, k - 1);
        RootIsMth(b, k - 1);
        RootOfHalves(a, b, k - 1);
        MthOfHalves(a, b, k - 1);
      }
    }

    // -------------------------------------------------------------- binding

    lemma {:induction false} AboveIsInjective(a: seq<Hash>, b: seq<Hash>)
      requires CollisionFree() && |a| == |b| && Above(a) == Above(b)
      ensures a == b
    {
      if a != [] {
        assert Above(a)[0] == Above(b)[0];
        if |a| > 1 {
          assert Above(a)[1..] == Above(a[2..]) && Above(b)[1..] == Above(b[2..]);
          AboveIsInjective(a[2..], b[2..]);
          assert a == [a[0], a[1]] + a[2..] && b == [b[0], b[1]] + b[2..];
        }
      }
    }

    lemma {:induction false} ClimbIsInjective(a: seq<Hash>, b: seq<Hash>)
      requires CollisionFree() && |a| == |b| && a != [] && Climb(a) == Climb(b)
      ensures a == b
      decreases |a|
    {
      if |a| > 1 {
        ClimbIsInjective(Above(a), Above(b));
        AboveIsInjective(a, b);
      }
    }

    /** A root commits to the leaves, among lists of the same length. */
    lemma RootIsBinding(a: seq<Hash>, b: seq<Hash>)
      requires CollisionFree() && |a| == |b|
      ensures Root(a) == Root(b) <==> a == b
    {
      if a != [] && Root(a) == Root(b) {
        ClimbIsInjective(LeafLevel(a), LeafLevel(b));
        forall i | 0 <= i < |a|
          ensures a[i] == b[i]
        {
          assert LeafLevel(a)[i] == LeafLevel(b)[i];
        }
      }
    }

    /** Lists of odd length of at least three have a second list, one longer, with the same root. */
    lemma DuplicatedLastLeafSharesRoot(leaves: seq<Hash>)
      requires |leaves| >= 3 && |leaves| % 2 == 1
      ensures Root(leaves + [leaves[|leaves| - 1]]) == Root(leaves)
    {
      var n := |leaves|;
      var level, longer := LeafLevel(leaves), LeafLevel(leaves + [leaves[n - 1]]);
      var front, x := level[..n - 1], level[n - 1];
      assert level == front + [x] && longer == front + [x, x];
      AboveHalves(front, [x], n / 2);
      AboveHalves(front, [x, x], n / 2);
      assert Above([x, x]) == [node(x, x)] == Above([x]);
      assert Above(longer) == Above(level);
      assert Climb(level) == Climb(Above(level)) && Climb(longer) == Climb(Above(longer));
    }
  }
}
