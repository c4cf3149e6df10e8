/** Text as Unicode scalar values: its UTF-8 and UTF-16 forms, and the orders they sort by. */
module Text {
  import opened Bytes

  function Utf8Char(c: char): (r: seq<byte>)
    ensures r != []
  {
    var n := c as int;
    if n < 0x80 then [n]
    else if n < 0x800 then [0xC0 + n / 64, 0x80 + n % 64]
    else if n < 0x1_0000 then [0xE0 + n / 4096, 0x80 + n / 64 % 64, 0x80 + n % 64]
    else [0xF0 + n / 262144, 0x80 + n / 4096 % 64, 0x80 + n / 64 % 64, 0x80 + n % 64]
  }

  function Utf8(s: string): seq<byte> {
    if s == [] then [] else Utf8Char(s[0]) + Utf8(s[1..])
  }

  /** One code unit, or a surrogate pair. */
  function Utf16Char(c: char): (r: seq<nat>)
    ensures r != []
  {
    var n := c as int;
    if n < 0x1_0000 then [n] else [0xD800 + (n - 0x1_0000) / 1024, 0xDC00 + (n - 0x1_0000) % 1024]
  }

  function Utf16(s: string): seq<nat> {
    if s == [] then [] else Utf16Char(s[0]) + Utf16(s[1..])
  }

  // ---------------------------------------------------------------- orders

  /** Lexicographic order. */
  predicate Less(a: seq<nat>, b: seq<nat>) {
    b != [] && (a == [] || a[0] < b[0] || (a[0] == b[0] && Less(a[1..], b[1..])))
  }

  /** Order of scalar values. */
  predicate LessText(s: string, t: string) {
    t != [] && (s == [] || s[0] < t[0] || (s[0] == t[0] && LessText(s[1..], t[1..])))
  }

  /** The order of Rust strings: by UTF-8 bytes. */
  predicate Before8(s: string, t: string) {
    Less(Utf8(s), Utf8(t))
  }

  /** The order of JavaScript strings: by UTF-16 code units. */
  predicate Before16(s: string, t: string) {
    Less(Utf16(s), Utf16(t))
  }

  lemma {:induction false} LessIsStrict(a: seq<nat>, b: seq<nat>)
    ensures !(Less(a, b) && Less(b, a)) && !Less(a, a)
  {
    if a != [] {
      LessIsStrict(a[1..], a[1..]);
      if b != [] { LessIsStrict(a[1..], b[1..]); }
    }
  }

  lemma {:induction false} LessIsTransitive(a: seq<nat>, b: seq<nat>, c: seq<nat>)
    requires Less(a, b) && Less(b, c)
    ensures Less(a, c)
  {
    if a != [] && a[0] == b[0] == c[0] {
      LessIsTransitive(a[1..], b[1..], c[1..]);
    }
  }

  lemma {:induction false} LessPastPrefix(p: seq<nat>, a: seq<nat>, b: seq<nat>)
    ensures Less(p + a, p + b) <==> Less(a, b)
  {
    if p == [] {
      assert p + a == a && p + b == b;
    } else {
      LessPastPrefix(p[1..], a, b);
      assert (p + a)[1..] == p[1..] + a && (p + b)[1..] == p[1..] + b;
    }
  }

  lemma {:induction false} TextsCompare(s: string, t: string)
    ensures s == t || LessText(s, t) || LessText(t, s)
  {
    if s != [] && t != [] && s[0] == t[0] {
      TextsCompare(s[1..], t[1..]);
      assert s == [s[0]] + s[1..] && t == [t[0]] + t[1..];
    }
  }

  // ---------------------------------------------------------------- UTF-8 keeps the order of scalars

  /** Sequences compare by their first difference. */
  lemma {:induction false} LessAt(a: seq<nat>, b: seq<nat>, k: nat)
    requires k < |a| && k < |b| && a[..k] == b[..k] && a[k] < b[k]
    ensures Less(a, b)
  {
    if k > 0 {
      assert a[0] == a[..k][0] == b[..k][0] == b[0];
      assert a[1..][..k - 1] == a[..k][1..] && b[1..][..k - 1] == b[..k][1..];
      LessAt(a[1..], b[1..], k - 1);
    }
  }

  /** A scalar value is its six-bit groups. */
  lemma SixBitGroups(n: nat)
    ensures n == n / 64 * 64 + n % 64
    ensures n / 64 == n / 4096 * 64 + n / 64 % 64
    ensures n / 4096 == n / 262144 * 64 + n / 4096 % 64
  {
  }

  /** The first byte at which the forms of two characters differ. */
  function FirstDifference(a: seq<byte>, b: seq<byte>): (k: nat)
    ensures k <= |a| && k <= |b| && a[..k] == b[..k]
    ensures k < |a| && k < |b| ==> a[k] != b[k]
    ensures |a| == |b| == k ==> a == b
  {
    if a == [] || b == [] || a[0] != b[0] then 0 else
      var k := 1 + FirstDifference(a[1..], b[1..]);
      assert a[..k] == [a[0]] + a[1..][..k - 1] && b[..k] == [b[0]] + b[1..][..k - 1];
      k
  }

  /** Reads a scalar value back from its bytes. */
  function FromUtf8Char(bs: seq<byte>): int
    requires bs != []
  {
    if |bs| == 1 then bs[0] as int
    else if |bs| == 2 then (bs[0] as int - 0xC0) * 64 + (bs[1] as int - 0x80)
    else if |bs| == 3 then (bs[0] as int - 0xE0) * 4096 + (bs[1] as int - 0x80) * 64 + (bs[2] as int - 0x80)
    else if |bs| == 4 then (bs[0] as int - 0xF0) * 262144 + (bs[1] as int - 0x80) * 4096 + (bs[2] as int - 0x80) * 64 + (bs[3] as int - 0x80)
    else 0
  }

  /** A lead byte that tells the length, then continuation bytes; a longer form stands for a larger value. */
  lemma Utf8CharShape(c: char)
    ensures var n, bs := c as int, Utf8Char(c);
      && FromUtf8Char(bs) == n
      && (forall i :: 1 <= i < |bs| ==> 0x80 <= bs[i] < 0xC0)
      && match |bs|
         case 1 => n < 0x80 && bs[0] < 0x80
         case 2 => 0x80 <= n < 0x800 && 0xC0 <= bs[0] < 0xE0
         case 3 => 0x800 <= n < 0x1_0000 && 0xE0 <= bs[0] < 0xF0
         case 4 => 0x1_0000 <= n && 0xF0 <= bs[0]
         case _ => false
  {
    SixBitGroups(c as int);
  }

  lemma Utf8CharsCompare(c: char, d: char)
    requires c < d
    ensures var k := FirstDifference(Utf8Char(c), Utf8Char(d));
      k < |Utf8Char(c)| && k < |Utf8Char(d)| && Utf8Char(c)[k] < Utf8Char(d)[k]
  {
    Utf8CharShape(c);
    Utf8CharShape(d);
    hide Utf8Char;
    var a, b := Utf8Char(c), Utf8Char(d);
    var k := FirstDifference(a, b);
    if k > 0 {
      assert a[..k][0] == b[..k][0];
      assert |a| == |b|;
      assert a != b && k < |a|;
      assert k >= 2 ==> a[..k][1] == b[..k][1];
      assert k >= 3 ==> a[..k][2] == b[..k][2];
    }
  }

  lemma Utf8CharKeepsOrder(c: char, d: char, x: seq<byte>, y: seq<byte>)
    requires c < d
    ensures Less(Utf8Char(c) + x, Utf8Char(d) + y)
  {
    hide Utf8Char;
    Utf8CharsCompare(c, d);
    var k := FirstDifference(Utf8Char(c), Utf8Char(d));
    assert (Utf8Char(c) + x)[..k] == Utf8Char(c)[..k] && (Utf8Char(d) + y)[..k] == Utf8Char(d)[..k];
    LessAt(Utf8Char(c) + x, Utf8Char(d) + y, k);
  }

  lemma {:induction false} Utf8KeepsOrder(s: string, t: string)
    requires LessText(s, t)
    ensures Before8(s, t)
  {
    if s != [] {
      if s[0] == t[0] {
        Utf8KeepsOrder(s[1..], t[1..]);
        LessPastPrefix(Utf8Char(s[0]), Utf8(s[1..]), Utf8(t[1..]));
      } else {
        Utf8CharKeepsOrder(s[0], t[0], Utf8(s[1..]), Utf8(t[1..]));
      }
    }
  }

  lemma Utf8OrderIsScalarOrder(s: string, t: string)
    ensures Before8(s, t) <==> LessText(s, t)
  {
    TextsCompare(s, t);
    LessIsStrict(Utf8(s), Utf8(t));
    if LessText(s, t) { Utf8KeepsOrder(s, t); }
    if LessText(t, s) { Utf8KeepsOrder(t, s); }
  }

  lemma Utf8IsInjective(s: string, t: string)
    requires Utf8(s) == Utf8(t)
    ensures s == t
  {
    TextsCompare(s, t);
    LessIsStrict(Utf8(s), Utf8(t));
    if LessText(s, t) { Utf8KeepsOrder(s, t); }
    if LessText(t, s) { Utf8KeepsOrder(t, s); }
  }

  // ---------------------------------------------------------------- UTF-16 does not

  predicate Astral(c: char) {
    c as int >= 0x1_0000
  }

  /** Above the surrogates, but still one code unit. */
  predicate HighUnit(c: char) {
    0xE000 <= c as int < 0x1_0000
  }

  /** The texts first differ in a surrogate pair on one side and a higher single unit on the other. */
  predicate Inverted(s: string, t: string) {
    && s != [] && t != []
    && if s[0] == t[0] then Inverted(s[1..], t[1..])
       else (Astral(s[0]) && HighUnit(t[0])) || (HighUnit(s[0]) && Astral(t[0]))
  }

  lemma Utf16CharOrder(c: char, d: char, x: seq<nat>, y: seq<nat>)
    requires c != d
    ensures Less(Utf16Char(c) + x, Utf16Char(d) + y)
       <==> (c < d) != ((Astral(c) && HighUnit(d)) || (HighUnit(c) && Astral(d)))
  {
    var a, b := Utf16Char(c) + x, Utf16Char(d) + y;
    if Astral(c) && Astral(d) {
      assert a[1..][0] == Utf16Char(c)[1] && b[1..][0] == Utf16Char(d)[1];
      assert a[0] == Utf16Char(c)[0] && b[0] == Utf16Char(d)[0];
    }
  }

  /** JavaScript sorts two texts like Rust exactly when they do not first differ in such a pair. */
  lemma {:induction false} OrdersDisagreeIffInverted(s: string, t: string)
    requires s != t
    ensures (Before16(s, t) <==> Before8(s, t)) <==> !Inverted(s, t)
  {
    Utf8OrderIsScalarOrder(s, t);
    if s != [] && t != [] {
      if s[0] == t[0] {
        assert s == [s[0]] + s[1..] && t == [t[0]] + t[1..];
        OrdersDisagreeIffInverted(s[1..], t[1..]);
        Utf8OrderIsScalarOrder(s[1..], t[1..]);
        LessPastPrefix(Utf16Char(s[0]), Utf16(s[1..]), Utf16(t[1..]));
      } else {
        Utf16CharOrder(s[0], t[0], Utf16(s[1..]), Utf16(t[1..]));
      }
    }
  }

  /** For any two different texts one comes before the other in UTF-16. */
  lemma {:induction false} Utf16IsTotal(s: string, t: string)
    ensures s == t || Before16(s, t) || Before16(t, s)
  {
    if s != [] && t != [] {
      if s[0] == t[0] {
        Utf16IsTotal(s[1..], t[1..]);
        LessPastPrefix(Utf16Char(s[0]), Utf16(s[1..]), Utf16(t[1..]));
        LessPastPrefix(Utf16Char(s[0]), Utf16(t[1..]), Utf16(s[1..]));
        assert s == [s[0]] + s[1..] && t == [t[0]] + t[1..];
      } else {
        Utf16CharOrder(s[0], t[0], Utf16(s[1..]), Utf16(t[1..]));
        Utf16CharOrder(t[0], s[0], Utf16(t[1..]), Utf16(s[1..]));
      }
    }
  }
}
