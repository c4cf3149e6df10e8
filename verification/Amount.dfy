/** Decimal amounts: printed and parsed by the wallet, and parsed again by the node's command line. */
module Amount {
  import opened Common
  import opened Bytes

  const CLAW_DECIMALS: nat := 9
  const NANO: nat := 1_000_000_000

  function Pow10(d: nat): (r: nat)
    ensures r > 0
  {
    if d == 0 then 1 else 10 * Pow10(d - 1)
  }

  /** Quotient and remainder. */
  function Split(n: nat, m: nat): (r: (nat, nat))
    requires m > 0
    ensures n == r.0 * m + r.1 && r.1 < m
  {
    var q, r := n / m, n % m;
    (q, r)
  }

  // ---------------------------------------------------------------- text

  function Zeros(n: nat): (r: string)
    ensures |r| == n && AllDigits(r)
  {
    seq(n, i => '0')
  }

  function PadEnd(s: string, n: nat): string {
    if |s| < n then s + Zeros(n - |s|) else s
  }

  function PadStart(s: string, n: nat): string {
    if |s| < n then Zeros(n - |s|) + s else s
  }

  /** `replace(/0+$/, '')`. */
  function WithoutTrailingZeros(s: string): (r: string)
    ensures r <= s
    ensures s == r + Zeros(|s| - |r|)
  {
    if s == [] || s[|s| - 1] != '0' then s
    else
      var r := WithoutTrailingZeros(s[..|s| - 1]);
      assert s == r + Zeros(|s| - 1 - |r|) + ['0'];
      assert Zeros(|s| - 1 - |r|) + ['0'] == Zeros(|s| - |r|);
      r
  }

  /** The position of the first dot, or the length. */
  function Dot(s: string): (i: nat)
    ensures i <= |s| && '.' !in s[..i]
    ensures i < |s| ==> s[i] == '.'
  {
    if s == [] || s[0] == '.' then 0 else
      var i := 1 + Dot(s[1..]);
      assert s[..i] == [s[0]] + s[1..][..i - 1];
      i
  }

  // ---------------------------------------------------------------- the wallet

  /** The language's own integer parser; nothing but its reading of digits is relied on. */
  ghost predicate ReadsDecimals(bigInt: string -> Option<int>) {
    && bigInt("") == Some(0)
    && forall s: string :: AllDigits(s) ==> bigInt(s) == Some(FromDecimal(s))
  }

  /** `amount.split('.')`: whatever follows a second dot is dropped; a failed conversion throws. */
  function ParseAmount(bigInt: string -> Option<int>, amount: string, decimals: nat): Option<int> {
    var dot := Dot(amount);
    var whole := bigInt(if dot == 0 then "0" else amount[..dot]);
    var rest := if dot < |amount| then amount[dot + 1..] else "";
    var part := rest[..Dot(rest)];
    var fractional := if part == "" then Some(0) else bigInt(PadEnd(part, decimals)[..decimals]);
    if whole == None || fractional == None then None else Some(whole.value * Pow10(decimals) + fractional.value)
  }

  function FormatAmount(baseUnits: nat, decimals: nat): string {
    var (whole, frac) := Split(baseUnits, Pow10(decimals));
    if frac == 0 then Decimal(whole)
    else Decimal(whole) + "." + WithoutTrailingZeros(PadStart(Decimal(frac), decimals))
  }

  // ---------------------------------------------------------------- the node's command line

  /** Unicode white space. */
  predicate IsWhite(c: char) {
    var n := c as int;
    9 <= n <= 13 || n == 32 || n == 0x85 || n == 0xA0 || n == 0x1680 || 0x2000 <= n <= 0x200A
    || n == 0x2028 || n == 0x2029 || n == 0x202F || n == 0x205F || n == 0x3000
  }

  function Trim(s: string): string {
    if s == [] then s
    else if IsWhite(s[0]) then Trim(s[1..])
    else if IsWhite(s[|s| - 1]) then Trim(s[..|s| - 1])
    else s
  }

  /** `str::parse::<u128>`: digits with an optional plus sign, below 2^128. */
  function ParseU128(s: string): Option<u128> {
    var digits := if s != [] && s[0] == '+' then s[1..] else s;
    if digits == [] || !AllDigits(digits) then None
    else if FromDecimal(digits) >= U128_LIMIT then None
    else Some(FromDecimal(digits))
  }

  /** An error, a value, or an arithmetic overflow (a panic, or a wrong result where overflow wraps). */
  datatype Reading = Amount(value: u128) | Invalid(why: string) | Overflow

  function ParseClawAmount(text: string): Reading {
    var s := Trim(text);
    var dot := Dot(s);
    ReadParts(s[..dot], if dot == |s| then None else Some(s[dot + 1..]))
  }

  /** What stands before the first dot, and what after it. */
  function ReadParts(before: string, after: Option<string>): Reading {
    match ParseU128(before)
    case None => Invalid("invalid amount")
    case Some(whole) =>
      match after
      case None => Sum(whole, 0)
      case Some(digits) =>
        if |digits| > 9 then Invalid("too many decimal places (max 9)")
        else match ParseU128(digits)
          case None => Invalid("invalid decimal")
          case Some(frac) =>
            if frac * Pow10(9 - |digits|) >= U128_LIMIT then Overflow else Sum(whole, frac * Pow10(9 - |digits|))
  }

  function Sum(whole: u128, frac: u128): Reading {
    if whole * NANO + frac >= U128_LIMIT then Overflow else Amount(whole * NANO + frac)
  }

  // ---------------------------------------------------------------- digits

  lemma {:induction false} Pow10Adds(a: nat, b: nat)
    ensures Pow10(a + b) == Pow10(a) * Pow10(b)
  {
    if a > 0 {
      Pow10Adds(a - 1, b);
      assert Pow10(a + b) == 10 * Pow10(a - 1 + b);
    }
  }

  lemma NineDecimals()
    ensures Pow10(9) == NANO
  {
    assert Pow10(4) == 10_000;
  }

  lemma {:induction false} ZerosAfter(s: string, n: nat)
    requires AllDigits(s)
    ensures AllDigits(s + Zeros(n)) && FromDecimal(s + Zeros(n)) == FromDecimal(s) * Pow10(n)
  {
    if n == 0 {
      assert s + Zeros(0) == s;
    } else {
      ZerosAfter(s, n - 1);
      assert (s + Zeros(n))[..|s| + n - 1] == s + Zeros(n - 1);
    }
  }

  lemma {:induction false} ZerosBefore(n: nat, s: string)
    requires AllDigits(s)
    ensures AllDigits(Zeros(n) + s) && FromDecimal(Zeros(n) + s) == FromDecimal(s)
  {
    var t := Zeros(n) + s;
    if s != [] {
      ZerosBefore(n, s[..|s| - 1]);
      assert t[..|t| - 1] == Zeros(n) + s[..|s| - 1];
    } else if n > 0 {
      ZerosBefore(n - 1, s);
      assert t[..|t| - 1] == Zeros(n - 1) + s;
    }
  }

  lemma {:induction false} DigitsAreBounded(s: string)
    requires AllDigits(s)
    ensures FromDecimal(s) < Pow10(|s|)
  {
    if s != [] { DigitsAreBounded(s[..|s| - 1]); }
  }

  lemma {:induction false} DecimalLength(n: nat, d: nat)
    requires 0 < n < Pow10(d)
    ensures |Decimal(n)| <= d
  {
    if n >= 10 { DecimalLength(n / 10, d - 1); }
  }

  /** A number below 10^d written with exactly d digits. */
  lemma Padded(n: nat, d: nat)
    requires 0 < n < Pow10(d)
    ensures var p := PadStart(Decimal(n), d); |p| == d && AllDigits(p) && FromDecimal(p) == n
  {
    DecimalLength(n, d);
    DecimalRoundTrip(n);
    ZerosBefore(d - |Decimal(n)|, Decimal(n));
    assert Zeros(0) + Decimal(n) == Decimal(n);
  }

  lemma NoDigits()
    ensures FromDecimal("") == 0
  {
  }

  /** The fractional digits `formatAmount` prints: at least one, at most d, and worth n when filled up again. */
  lemma FractionDigits(n: nat, d: nat)
    requires 0 < n < Pow10(d)
    ensures var f := WithoutTrailingZeros(PadStart(Decimal(n), d));
      && 0 < |f| <= d && AllDigits(f) && PadEnd(f, d) == PadStart(Decimal(n), d)
      && FromDecimal(f) * Pow10(d - |f|) == n
  {
    hide Pow10, PadStart, Decimal, WithoutTrailingZeros, FromDecimal;
    var p := PadStart(Decimal(n), d);
    Padded(n, d);
    NoDigits();
    var f := WithoutTrailingZeros(p);
    assert AllDigits(f) by { assert forall i :: 0 <= i < |f| ==> f[i] == p[i]; }
    ZerosAfter(f, d - |f|);
    assert FromDecimal(f) * Pow10(d - |f|) == n;
    assert FromDecimal(f) != 0;
    assert f + Zeros(0) == f;
  }

  lemma {:induction false} DotInDigits(w: string, f: string)
    requires AllDigits(w)
    ensures Dot(w) == |w| && Dot(w + "." + f) == |w|
  {
    if w != [] {
      DotInDigits(w[1..], f);
      assert (w + "." + f)[1..] == w[1..] + "." + f;
    }
  }

  // ---------------------------------------------------------------- plain decimals

  /** Digits, or digits with a dot and up to d digits after it. */
  datatype Plain = Plain(whole: string, frac: Option<string>) {
    predicate Fits(d: nat) {
      && whole != [] && AllDigits(whole)
      && (frac.Some? ==> 0 < |frac.value| <= d && AllDigits(frac.value))
    }

    function Text(): string {
      if frac.Some? then whole + "." + frac.value else whole
    }

    /** What it is worth in units of 10^-d. */
    function Value(d: nat): nat
      requires Fits(d)
    {
      FromDecimal(whole) * Pow10(d) + if frac.Some? then FromDecimal(frac.value) * Pow10(d - |frac.value|) else 0
    }
  }

  lemma TextParts(p: Plain, d: nat)
    requires p.Fits(d)
    ensures var t, dot := p.Text(), Dot(p.Text());
      && dot == |p.whole| && t[..dot] == p.whole
      && (p.frac.Some? <==> dot < |t|) && (p.frac.Some? ==> t[dot + 1..] == p.frac.value)
  {
    DotInDigits(p.whole, if p.frac.Some? then p.frac.value else "");
  }

  /** The wallet reads every plain decimal as its value. */
  lemma ParseAmountReadsPlain(bigInt: string -> Option<int>, p: Plain, d: nat)
    requires ReadsDecimals(bigInt) && p.Fits(d)
    ensures ParseAmount(bigInt, p.Text(), d) == Some(p.Value(d))
  {
    TextParts(p, d);
    if p.frac.Some? {
      FractionReads(bigInt, p.frac.value, d);
    }
  }

  /** Digits after the dot, filled up with zeros, count in units of 10^-d. */
  lemma FractionReads(bigInt: string -> Option<int>, f: string, d: nat)
    requires ReadsDecimals(bigInt) && AllDigits(f) && |f| <= d
    ensures Dot(f) == |f| && f[..|f|] == f
    ensures |PadEnd(f, d)| >= d && bigInt(PadEnd(f, d)[..d]) == Some(FromDecimal(f) * Pow10(d - |f|))
  {
    DotInDigits(f, "");
    ZerosAfter(f, d - |f|);
    assert f + Zeros(0) == f;
    assert PadEnd(f, d)[..d] == f + Zeros(d - |f|);
  }

  /** The command line reads it as the same value, or says that it does not fit in 128 bits. */
  lemma ParseClawAmountReadsPlain(p: Plain)
    requires p.Fits(9)
    ensures ParseClawAmount(p.Text()) ==
      if p.Value(9) < U128_LIMIT then Amount(p.Value(9))
      else if FromDecimal(p.whole) >= U128_LIMIT then Invalid("invalid amount") else Overflow
  {
    TextParts(p, 9);
    NothingToTrim(p, 9);
    PartsRead(p);
    hide Trim, Dot, Pow10, FromDecimal, ParseU128, ReadParts;
    assert p.frac.Some? ==> p.Text()[|p.whole| + 1..] == p.frac.value;
  }

  lemma PartsRead(p: Plain)
    requires p.Fits(9)
    ensures ReadParts(p.whole, p.frac) ==
      if p.Value(9) < U128_LIMIT then Amount(p.Value(9))
      else if FromDecimal(p.whole) >= U128_LIMIT then Invalid("invalid amount") else Overflow
  {
    hide Pow10, FromDecimal, ParseU128;
    NineDecimals();
    DigitsParse(p.whole);
    if p.frac.Some? {
      DigitsParse(p.frac.value);
      FractionBelowOne(p.frac.value);
    }
    var w := FromDecimal(p.whole);
    assert w >= U128_LIMIT ==> w * NANO >= U128_LIMIT;
  }

  lemma DigitsParse(s: string)
    requires s != [] && AllDigits(s)
    ensures ParseU128(s) == if FromDecimal(s) < U128_LIMIT then Some(FromDecimal(s)) else None
  {
    assert IsDigit(s[0]);
  }

  lemma NothingToTrim(p: Plain, d: nat)
    requires p.Fits(d)
    ensures Trim(p.Text()) == p.Text()
  {
    var t := p.Text();
    assert t[0] == p.whole[0] && IsDigit(t[0]);
    assert IsDigit(t[|t| - 1]) by {
      if p.frac.Some? { assert t[|t| - 1] == p.frac.value[|p.frac.value| - 1]; }
    }
  }

  lemma FractionBelowOne(f: string)
    requires AllDigits(f) && |f| <= 9
    ensures FromDecimal(f) < U128_LIMIT && FromDecimal(f) * Pow10(9 - |f|) < NANO
  {
    DigitsAreBounded(f);
    Pow10Adds(|f|, 9 - |f|);
    NineDecimals();
    hide Pow10, FromDecimal;
    var n, r := FromDecimal(f), Pow10(9 - |f|);
    assert n * r < Pow10(|f|) * r;
    assert n <= n * r;
  }

  // ---------------------------------------------------------------- round trips

  /** What `formatAmount` prints. */
  function Formatted(n: nat, d: nat): Plain {
    var (whole, frac) := Split(n, Pow10(d));
    Plain(Decimal(whole), if frac == 0 then None else Some(WithoutTrailingZeros(PadStart(Decimal(frac), d))))
  }

  lemma FormatIsPlain(n: nat, d: nat)
    ensures var p := Formatted(n, d);
      p.Text() == FormatAmount(n, d) && p.Fits(d) && p.Value(d) == n
  {
    var (whole, frac) := Split(n, Pow10(d));
    DecimalRoundTrip(whole);
    if frac != 0 {
      FractionDigits(frac, d);
    }
  }

  /** No zero leads the whole part but the only one, and none ends the fraction. */
  predicate Canonical(p: Plain) {
    && (|p.whole| > 1 ==> p.whole[0] != '0')
    && (p.frac.Some? && p.frac.value != "" ==> p.frac.value[|p.frac.value| - 1] != '0')
  }

  lemma {:induction false} LeadingDigitCounts(s: string)
    requires AllDigits(s) && s != [] && s[0] != '0'
    ensures FromDecimal(s) > 0
  {
    if |s| > 1 { LeadingDigitCounts(s[..|s| - 1]); } else { assert s[..0] == []; }
  }

  lemma OneMoreDigit(m: nat, c: char)
    requires m > 0 && IsDigit(c)
    ensures Decimal(10 * m + (c as int - '0' as int)) == Decimal(m) + [c]
  {
  }

  lemma OneDigit(c: char)
    requires IsDigit(c)
    ensures Decimal(c as int - '0' as int) == [c]
  {
  }

  lemma {:induction false} DecimalIsOnlyOne(s: string)
    requires AllDigits(s) && s != [] && (|s| > 1 ==> s[0] != '0')
    ensures Decimal(FromDecimal(s)) == s
  {
    hide Decimal;
    var n := |s| - 1;
    if n == 0 {
      OneDigit(s[0]);
      assert s[..0] == [] && s == [s[0]];
    } else {
      LeadingDigitCounts(s[..n]);
      DecimalIsOnlyOne(s[..n]);
      OneMoreDigit(FromDecimal(s[..n]), s[n]);
      assert s == s[..n] + [s[n]];
    }
  }

  lemma {:induction false} DecimalLeads(n: nat)
    ensures |Decimal(n)| > 1 ==> Decimal(n)[0] != '0'
    ensures n > 0 ==> Decimal(n)[0] != '0'
  {
    if n >= 10 { DecimalLeads(n / 10); }
  }

  lemma {:induction false} SameDigits(s: string, t: string)
    requires AllDigits(s) && AllDigits(t) && |s| == |t| && FromDecimal(s) == FromDecimal(t)
    ensures s == t
  {
    if s != [] {
      var n := |s| - 1;
      SameDigits(s[..n], t[..n]);
      assert s == s[..n] + [s[n]] && t == t[..n] + [t[n]];
    }
  }

  lemma {:induction false} ZerosComeOff(f: string, n: nat)
    requires f != [] && f[|f| - 1] != '0'
    ensures WithoutTrailingZeros(f + Zeros(n)) == f
  {
    if n == 0 {
      assert f + Zeros(0) == f;
    } else {
      assert (f + Zeros(n))[..|f| + n - 1] == f + Zeros(n - 1);
      ZerosComeOff(f, n - 1);
    }
  }

  lemma {:induction false} NoZeroLeft(s: string)
    ensures var r := WithoutTrailingZeros(s); r != [] ==> r[|r| - 1] != '0'
  {
    if s != [] && s[|s| - 1] == '0' { NoZeroLeft(s[..|s| - 1]); }
  }

  lemma {:induction false} LastDigitCounts(f: string)
    requires AllDigits(f) && f != [] && f[|f| - 1] != '0'
    ensures FromDecimal(f) > 0
  {
  }

  /** A fraction below one, filled up to d digits. */
  lemma FilledFraction(f: string, d: nat)
    requires AllDigits(f) && 0 < |f| <= d
    ensures var x := FromDecimal(f) * Pow10(d - |f|); x < Pow10(d) && FromDecimal(PadEnd(f, d)) == x && AllDigits(PadEnd(f, d))
  {
    ZerosAfter(f, d - |f|);
    assert f + Zeros(0) == f;
    DigitsAreBounded(PadEnd(f, d));
  }

  lemma {:induction false} OneTimeMore(a: nat, b: nat, m: nat)
    requires a < b
    ensures a * m + m <= b * m
  {
    assert b * m == (b - 1) * m + m;
    if a + 1 < b { OneTimeMore(a, b - 1, m); }
  }

  lemma SplitIs(n: nat, m: nat, q: nat, r: nat)
    requires m > 0 && n == q * m + r && r < m
    ensures Split(n, m) == (q, r)
  {
    var (x, y) := Split(n, m);
    if x < q {
      OneTimeMore(x, q, m);
    } else if x > q {
      OneTimeMore(q, x, m);
    }
  }

  lemma FractionIsOnlyOne(f: string, d: nat)
    requires AllDigits(f) && 0 < |f| <= d && f[|f| - 1] != '0'
    ensures var x := FromDecimal(f) * Pow10(d - |f|); 0 < x < Pow10(d) && WithoutTrailingZeros(PadStart(Decimal(x), d)) == f
  {
    hide Decimal, FromDecimal, Pow10, PadStart;
    var x := FromDecimal(f) * Pow10(d - |f|);
    FilledFraction(f, d);
    LastDigitCounts(f);
    assert x > 0;
    Padded(x, d);
    SameDigits(PadEnd(f, d), PadStart(Decimal(x), d));
    ZerosComeOff(f, d - |f|);
    assert f + Zeros(0) == f;
  }

  /** An amount is printed as the only canonical decimal of its worth. */
  lemma PrintedIff(p: Plain, n: nat, d: nat)
    requires p.Fits(d)
    ensures p == Formatted(n, d) <==> Canonical(p) && p.Value(d) == n
  {
    hide Decimal, FromDecimal, Pow10, PadStart, WithoutTrailingZeros;
    var (whole, frac) := Split(n, Pow10(d));
    if p == Formatted(n, d) {
      FormatIsPlain(n, d);
      DecimalLeads(whole);
      if frac != 0 { NoZeroLeft(PadStart(Decimal(frac), d)); }
    }
    if Canonical(p) && p.Value(d) == n {
      DecimalIsOnlyOne(p.whole);
      if p.frac.Some? {
        FractionIsOnlyOne(p.frac.value, d);
        SplitIs(n, Pow10(d), FromDecimal(p.whole), FromDecimal(p.frac.value) * Pow10(d - |p.frac.value|));
      } else {
        SplitIs(n, Pow10(d), FromDecimal(p.whole), 0);
      }
    }
  }

  /** Parsing what was printed gives the amount back, for every amount and every number of decimals. */
  lemma AmountRoundTrip(bigInt: string -> Option<int>, n: nat, d: nat)
    requires ReadsDecimals(bigInt)
    ensures ParseAmount(bigInt, FormatAmount(n, d), d) == Some(n)
  {
    FormatIsPlain(n, d);
    ParseAmountReadsPlain(bigInt, Formatted(n, d), d);
  }

  /** The command line reads a printed amount back exactly when it fits in 128 bits. */
  lemma NodeReadsBackIff(n: nat)
    ensures ParseClawAmount(FormatAmount(n, CLAW_DECIMALS)) == (if n < U128_LIMIT then Amount(n)
      else if n / NANO >= U128_LIMIT then Invalid("invalid amount") else Overflow)
  {
    FormatIsPlain(n, 9);
    ParseClawAmountReadsPlain(Formatted(n, 9));
    DecimalRoundTrip(n / NANO);
    NineDecimals();
  }

  // ---------------------------------------------------------------- the two parsers

  ghost predicate IsPlain(text: string, d: nat, n: nat) {
    exists p: Plain :: p.Text() == text && p.Fits(d) && p.Value(d) == n
  }

  /** A text cut at its first dot. */
  function Parts(text: string): (p: Plain)
    ensures p.Text() == text
  {
    var dot := Dot(text);
    assert dot < |text| ==> text == text[..dot] + "." + text[dot + 1..];
    assert dot == |text| ==> text[..dot] == text;
    Plain(text[..dot], if dot < |text| then Some(text[dot + 1..]) else None)
  }

  lemma PlusFree(text: string)
    requires '+' !in text
    ensures var p := Parts(text);
      && (p.whole != [] ==> p.whole[0] != '+')
      && (p.frac.Some? && p.frac.value != [] ==> p.frac.value[0] != '+')
  {
    var dot := Dot(text);
    assert text[..dot] != [] ==> text[..dot][0] in text;
    if dot < |text| { assert text[dot + 1..] != [] ==> text[dot + 1..][0] in text; }
  }

  /** Exactly which texts the command line accepts, signs and outer white space aside, and as what: plain decimals with at
    * most nine digits after the dot, worth less than 2^128. */
  lemma CommandLineAcceptsIff(text: string, n: u128)
    requires '+' !in text && Trim(text) == text
    ensures ParseClawAmount(text) == Amount(n) <==> IsPlain(text, 9, n)
  {
    var p := Parts(text);
    if ParseClawAmount(text).Amount? {
      PlusFree(text);
      assert p.Fits(9);
      ParseClawAmountReadsPlain(p);
      assert n == p.Value(9) ==> IsPlain(text, 9, n);
    }
    if IsPlain(text, 9, n) {
      var q: Plain :| q.Text() == text && q.Fits(9) && q.Value(9) == n;
      ParseClawAmountReadsPlain(q);
    }
  }

  /** What the command line accepts, unless it has a plus sign or outer white space, the wallet reads as the same amount. */
  lemma ParsersAgree(bigInt: string -> Option<int>, text: string)
    requires ReadsDecimals(bigInt) && ParseClawAmount(text).Amount? && '+' !in text && Trim(text) == text
    ensures ParseAmount(bigInt, text, 9) == Some(ParseClawAmount(text).value)
  {
    CommandLineAcceptsIff(text, ParseClawAmount(text).value);
    var p: Plain :| p.Text() == text && p.Fits(9) && p.Value(9) == ParseClawAmount(text).value;
    ParseAmountReadsPlain(bigInt, p, 9);
  }

  ghost predicate DigitsAndDots(text: string) {
    forall c :: c in text ==> IsDigit(c) || c == '.'
  }

  /** The text between the first dot and the second, or the end. */
  function Middle(text: string): string {
    var rest := if Parts(text).frac.Some? then Parts(text).frac.value else "";
    rest[..Dot(rest)]
  }

  /** What the wallet makes of a text: no whole part is a zero, and of the digits after the first dot it takes at most d, up
    * to a second dot. */
  function Read(text: string, d: nat): Plain {
    var whole, part := Parts(text).whole, Middle(text);
    Plain(if whole == "" then "0" else whole, if part == "" || d == 0 then None else Some(if |part| <= d then part else part[..d]))
  }

  /** The wallet looks at nothing but the parts. */
  lemma ParseAmountParts(bigInt: string -> Option<int>, text: string, d: nat, whole: int, fractional: int)
    requires bigInt(if Parts(text).whole == "" then "0" else Parts(text).whole) == Some(whole)
    requires |PadEnd(Middle(text), d)| >= d
    requires if Middle(text) == "" then fractional == 0 else bigInt(PadEnd(Middle(text), d)[..d]) == Some(fractional)
    ensures ParseAmount(bigInt, text, d) == Some(whole * Pow10(d) + fractional)
  {
    hide Pow10, PadEnd;
  }

  lemma PartsAreDigits(text: string)
    requires DigitsAndDots(text)
    ensures AllDigits(Parts(text).whole) && AllDigits(Middle(text))
  {
    BetweenDots(text);
    if Parts(text).frac.Some? {
      var rest := Parts(text).frac.value;
      assert DigitsAndDots(rest) by { assert forall c :: c in rest ==> c in text; }
      BetweenDots(rest);
    }
  }

  /** The wallet takes every text of digits and dots. */
  lemma WalletReadsDigitsAndDots(bigInt: string -> Option<int>, text: string, d: nat)
    requires ReadsDecimals(bigInt) && DigitsAndDots(text)
    ensures Read(text, d).Fits(d) && ParseAmount(bigInt, text, d) == Some(Read(text, d).Value(d))
  {
    hide Parts, Middle, Pow10, PadEnd, ParseAmount;
    PartsAreDigits(text);
    var whole, part := if Parts(text).whole == "" then "0" else Parts(text).whole, Middle(text);
    assert AllDigits("0");
    PartReads(bigInt, part, d);
    var digits := if |part| <= d then part else part[..d];
    ParseAmountParts(bigInt, text, d, FromDecimal(whole), if part == "" then 0 else FromDecimal(digits) * Pow10(d - |digits|));
    assert FromDecimal("") == 0;
  }

  lemma BetweenDots(text: string)
    requires DigitsAndDots(text)
    ensures AllDigits(text[..Dot(text)])
  {
    var t := text[..Dot(text)];
    forall i | 0 <= i < |t|
      ensures IsDigit(t[i])
    {
      assert t[i] in text && t[i] in t;
    }
  }

  lemma PartReads(bigInt: string -> Option<int>, part: string, d: nat)
    requires ReadsDecimals(bigInt) && AllDigits(part)
    ensures var digits := if |part| <= d then part else part[..d];
      && AllDigits(digits) && |digits| <= d && |PadEnd(part, d)| >= d
      && bigInt(PadEnd(part, d)[..d]) == Some(FromDecimal(digits) * Pow10(d - |digits|))
  {
    if |part| <= d {
      hide FromDecimal, Pow10;
      FractionReads(bigInt, part, d);
    } else {
      LongPartReads(bigInt, part, d);
    }
  }

  lemma LongPartReads(bigInt: string -> Option<int>, part: string, d: nat)
    requires ReadsDecimals(bigInt) && AllDigits(part) && |part| > d
    ensures PadEnd(part, d)[..d] == part[..d] && AllDigits(part[..d])
    ensures bigInt(part[..d]) == Some(FromDecimal(part[..d]) * Pow10(0))
  {
    assert AllDigits(part[..d]) && Pow10(0) == 1;
    hide FromDecimal, Pow10;
  }

  /** Exactly when the two parsers agree on a text of digits and dots: where the command line accepts it. Elsewhere, as on
    * a missing whole part, a trailing or a second dot, a tenth decimal or a value of 2^128, the wallet reads a number. */
  lemma ParsersAgreeIff(bigInt: string -> Option<int>, text: string)
    requires ReadsDecimals(bigInt) && DigitsAndDots(text)
    ensures ParseAmount(bigInt, text, 9).Some?
    ensures ParseClawAmount(text).Amount? && ParseAmount(bigInt, text, 9) == Some(ParseClawAmount(text).value)
       <==> exists n: u128 :: IsPlain(text, 9, n)
  {
    hide ParseClawAmount, ParseAmount, Trim, Read, IsPlain, DigitsAndDots;
    WalletReadsDigitsAndDots(bigInt, text, 9);
    NoWhite(text);
    if ParseClawAmount(text).Amount? {
      ParsersAgree(bigInt, text);
      CommandLineAcceptsIff(text, ParseClawAmount(text).value);
    }
    if n: u128 :| IsPlain(text, 9, n) {
      CommandLineAcceptsIff(text, n);
    }
  }

  lemma NoWhite(text: string)
    requires DigitsAndDots(text)
    ensures '+' !in text && Trim(text) == text
  {
    if text != [] { assert text[0] in text && text[|text| - 1] in text; }
  }

  /** Not the other way round: the wallet takes a missing whole part as zero... */
  lemma MissingWhole(bigInt: string -> Option<int>, f: string)
    requires ReadsDecimals(bigInt) && f != [] && AllDigits(f) && |f| <= 9
    ensures ParseAmount(bigInt, "." + f, 9) == Some(Plain("0", Some(f)).Value(9)) && ParseClawAmount("." + f).Invalid?
  {
    MissingWholeRefused(f);
    FractionReads(bigInt, f, 9);
    var t := "." + f;
    assert Dot(t) == 0 && t[1..] == f;
    assert FromDecimal("0") == 0;
    hide ParseClawAmount, Pow10, FromDecimal, PadEnd, Dot;
  }

  lemma MissingWholeRefused(f: string)
    requires f != [] && AllDigits(f)
    ensures ParseClawAmount("." + f).Invalid?
  {
    var t := "." + f;
    assert t[|t| - 1] == f[|f| - 1] && IsDigit(t[|t| - 1]);
    assert Trim(t) == t && t[..0] == "";
  }

  /** ...and drops the digits beyond the ninth. */
  lemma LongFraction(bigInt: string -> Option<int>, w: string, f: string)
    requires ReadsDecimals(bigInt) && w != [] && AllDigits(w) && AllDigits(f) && |f| > 9
    ensures ParseAmount(bigInt, w + "." + f, 9) == Some(Plain(w, Some(f[..9])).Value(9))
    ensures ParseClawAmount(w + "." + f).Invalid?
  {
    var t, p := w + "." + f, Plain(w, Some(f));
    DotInDigits(w, f);
    DotInDigits(f, "");
    assert t[..|w|] == w && t[|w| + 1..] == f && f[..|f|] == f;
    assert Pow10(0) == 1;
    NothingToTrim(p, |f|);
  }
}
