/** Little-endian numbers, hexadecimal and decimal text. */
module Bytes {

  import opened Common

  type byte = b: nat | b < 256
  type u32 = n: nat | n < 0x1_0000_0000
  type u64 = n: nat | n < U64_LIMIT
  type u128 = n: nat | n < U128_LIMIT

  // ---------------------------------------------------------------- little-endian numbers

  function Pow256(width: nat): (r: nat)
    ensures r > 0
  {
    if width == 0 then 1 else 256 * Pow256(width - 1)
  }

  /** The low bytes of n, least significant first. */
  function Le(n: nat, width: nat): (r: seq<byte>)
    ensures |r| == width
  {
    if width == 0 then [] else [n % 256] + Le(n / 256, width - 1)
  }

  function FromLe(bs: seq<byte>): nat {
    if bs == [] then 0 else bs[0] + 256 * FromLe(bs[1..])
  }

  lemma Widths()
    ensures Pow256(4) == 0x1_0000_0000
    ensures Pow256(8) == U64_LIMIT
    ensures Pow256(16) == U128_LIMIT
  {
    assert Pow256(4) == 0x1_0000_0000;
    assert Pow256(8) == 0x1_0000_0000_0000_0000;
    assert Pow256(12) == 0x1_0000_0000_0000_0000_0000_0000;
  }

  /** Reading back gives the number, reduced to the width. */
  lemma {:induction false} LeRoundTrip(n: nat, width: nat)
    ensures FromLe(Le(n, width)) == n % Pow256(width)
    ensures n < Pow256(width) ==> FromLe(Le(n, width)) == n
  {
    if width > 0 {
      LeRoundTrip(n / 256, width - 1);
      SplitModulo(n, Pow256(width - 1));
    }
  }

  lemma SplitModulo(n: nat, p: nat)
    requires p > 0
    ensures n % (256 * p) == n % 256 + 256 * (n / 256 % p)
    ensures n < 256 * p ==> n % (256 * p) == n
  {
    var q, r := n / 256 / p, n / 256 % p;
    assert n / 256 == q * p + r;
    assert n == 256 * (q * p + r) + n % 256;
    assert n == (256 * p) * q + (256 * r + n % 256);
    assert 256 * r + 255 < 256 * p;
    RemainderIsUnique(n, 256 * p, q, 256 * r + n % 256);
    if n < 256 * p { RemainderIsUnique(n, 256 * p, 0, n); }
  }

  lemma RemainderIsUnique(n: int, d: int, q: int, r: int)
    requires d > 0 && n == d * q + r && 0 <= r < d
    ensures n % d == r && n / d == q
  {
    var e := n / d - q;
    assert d * e == r - n % d;
    assert (e >= 1 ==> d * e >= d) && (e <= -1 ==> d * e <= -d);
  }

  /** Writing back gives the bytes. */
  lemma {:induction false} FromLeRoundTrip(bs: seq<byte>)
    ensures FromLe(bs) < Pow256(|bs|) && Le(FromLe(bs), |bs|) == bs
  {
    if bs != [] {
      FromLeRoundTrip(bs[1..]);
    }
  }

  // ---------------------------------------------------------------- hexadecimal

  function HexDigit(d: nat): char
    requires d < 16
  {
    (if d < 10 then '0' as int + d else 'a' as int + (d - 10)) as char
  }

  /** Two lower-case digits a byte. */
  function Hex(bs: seq<byte>): (r: string)
    ensures |r| == 2 * |bs|
  {
    if bs == [] then "" else [HexDigit(bs[0] / 16), HexDigit(bs[0] % 16)] + Hex(bs[1..])
  }

  lemma {:induction false} HexIsInjective(a: seq<byte>, b: seq<byte>)
    requires Hex(a) == Hex(b)
    ensures a == b
  {
    if a != [] && b != [] {
      assert Hex(a)[0] == Hex(b)[0] && Hex(a)[1] == Hex(b)[1];
      assert Hex(a)[2..] == Hex(a[1..]) && Hex(b)[2..] == Hex(b[1..]);
      HexIsInjective(a[1..], b[1..]);
      assert a == [a[0]] + a[1..] && b == [b[0]] + b[1..];
    }
  }

  // ---------------------------------------------------------------- decimal

  predicate IsDigit(c: char) {
    '0' <= c <= '9'
  }

  predicate AllDigits(s: string) {
    forall i :: 0 <= i < |s| ==> IsDigit(s[i])
  }

  function Decimal(n: nat): (r: string)
    ensures |r| > 0 && AllDigits(r)
  {
    if n < 10 then [('0' as int + n) as char] else Decimal(n / 10) + [('0' as int + n % 10) as char]
  }

  function FromDecimal(s: string): nat
    requires AllDigits(s)
  {
    if s == [] then 0 else 10 * FromDecimal(s[..|s| - 1]) + (s[|s| - 1] as int - '0' as int)
  }

  lemma {:induction false} DecimalRoundTrip(n: nat)
    ensures FromDecimal(Decimal(n)) == n
  {
    if n >= 10 {
      DecimalRoundTrip(n / 10);
      assert Decimal(n)[..|Decimal(n)| - 1] == Decimal(n / 10);
    } else {
      assert Decimal(n)[..0] == [];
    }
  }
}
