/** The string map of an agent registration: its bytes depend on the contents alone, and on the order of the keys. */
module Metadata {
  import opened Common
  import opened Bytes
  import opened Text
  import opened Borsh

  /** The properties of a JavaScript object in insertion order. */
  type Entries = seq<(string, string)>

  function Keys(e: Entries): (r: seq<string>)
    ensures |r| == |e|
    ensures forall i :: 0 <= i < |e| ==> r[i] == e[i].0
  {
    seq(|e|, i requires 0 <= i < |e| => e[i].0)
  }

  function Contents(e: Entries): map<string, string> {
    map i | 0 <= i < |e| && (forall j :: 0 <= j < |e| && e[j].0 == e[i].0 ==> j == i) :: e[i].0 := e[i].1
  }

  // ---------------------------------------------------------------- sorting

  datatype Order = JavaScript | Rust

  predicate Before(o: Order, s: string, t: string) {
    if o == JavaScript then Before16(s, t) else Before8(s, t)
  }

  lemma BeforeIsStrictTotal(o: Order, s: string, t: string)
    ensures !(Before(o, s, t) && Before(o, t, s))
    ensures s == t || Before(o, s, t) || Before(o, t, s)
  {
    LessIsStrict(Utf16(s), Utf16(t));
    LessIsStrict(Utf8(s), Utf8(t));
    Utf16IsTotal(s, t);
    TextsCompare(s, t);
    Utf8OrderIsScalarOrder(s, t);
    Utf8OrderIsScalarOrder(t, s);
  }

  lemma BeforeIsTransitive(o: Order, s: string, t: string, u: string)
    requires Before(o, s, t) && Before(o, t, u)
    ensures Before(o, s, u)
  {
    if o == JavaScript {
      LessIsTransitive(Utf16(s), Utf16(t), Utf16(u));
    } else {
      LessIsTransitive(Utf8(s), Utf8(t), Utf8(u));
    }
  }

  function Insert(o: Order, k: string, ks: seq<string>): (r: seq<string>)
    ensures |r| == |ks| + 1
  {
    if ks == [] || Before(o, k, ks[0]) then [k] + ks else [ks[0]] + Insert(o, k, ks[1..])
  }

  function Sort(o: Order, ks: seq<string>): (r: seq<string>)
    ensures |r| == |ks|
  {
    if ks == [] then [] else Insert(o, ks[0], Sort(o, ks[1..]))
  }

  ghost predicate Sorted(o: Order, ks: seq<string>) {
    forall i, j :: 0 <= i < j < |ks| ==> Before(o, ks[i], ks[j])
  }

  lemma {:induction false} InsertSorts(o: Order, k: string, ks: seq<string>)
    requires Sorted(o, ks) && k !in ks
    ensures Sorted(o, Insert(o, k, ks))
    ensures forall x :: x in Insert(o, k, ks) <==> x == k || x in ks
  {
    hide Before;
    var r := Insert(o, k, ks);
    if ks == [] {
    } else if Before(o, k, ks[0]) {
      forall j | 0 <= j < |ks|
        ensures Before(o, k, ks[j])
      {
        if j > 0 { BeforeIsTransitive(o, k, ks[0], ks[j]); }
      }
    } else {
      var rest := ks[1..];
      BeforeIsStrictTotal(o, k, ks[0]);
      assert forall x :: x in ks <==> x == ks[0] || x in rest;
      InsertSorts(o, k, rest);
      forall j | 1 <= j < |r|
        ensures Before(o, r[0], r[j])
      {
        assert r[j] == r[1..][j - 1];
        assert r[j] in Insert(o, k, rest);
      }
      forall i, j | 1 <= i < j < |r|
        ensures Before(o, r[i], r[j])
      {
        assert r[i] == r[1..][i - 1] && r[j] == r[1..][j - 1];
      }
    }
  }

  lemma {:induction false} SortSorts(o: Order, ks: seq<string>)
    requires NoRepeats(ks)
    ensures Sorted(o, Sort(o, ks))
    ensures forall x :: x in Sort(o, ks) <==> x in ks
  {
    hide Before;
    if ks != [] {
      SortSorts(o, ks[1..]);
      InsertSorts(o, ks[0], Sort(o, ks[1..]));
      assert forall x :: x in ks <==> x == ks[0] || x in ks[1..];
    }
  }

  lemma EmptyTogether(a: seq<string>, b: seq<string>)
    requires forall x :: x in a <==> x in b
    ensures a == [] <==> b == []
  {
    if a != [] { assert a[0] in b; }
    if b != [] { assert b[0] in a; }
  }

  /** The smallest of two equal collections stands first in both. */
  lemma {:induction false} SortedIsUnique(o: Order, a: seq<string>, b: seq<string>)
    requires Sorted(o, a) && Sorted(o, b) && forall x :: x in a <==> x in b
    ensures a == b
  {
    hide Before;
    EmptyTogether(a, b);
    if a != [] {
      assert a[0] in b && b[0] in a;
      var i :| 0 <= i < |b| && b[i] == a[0];
      var j :| 0 <= j < |a| && a[j] == b[0];
      BeforeIsStrictTotal(o, a[0], b[0]);
      assert a[0] == b[0];
      Tail(o, a);
      Tail(o, b);
      SortedIsUnique(o, a[1..], b[1..]);
      assert a == [a[0]] + a[1..] && b == [b[0]] + b[1..];
    }
  }

  lemma Tail(o: Order, ks: seq<string>)
    requires Sorted(o, ks) && ks != []
    ensures Sorted(o, ks[1..]) && forall x :: x in ks[1..] <==> x in ks && x != ks[0]
  {
    hide Before;
    forall x | x in ks[1..]
      ensures x in ks && x != ks[0]
    {
      var i :| 0 <= i < |ks[1..]| && ks[1..][i] == x;
      assert ks[i + 1] == x && Before(o, ks[0], ks[i + 1]);
      BeforeIsStrictTotal(o, ks[0], ks[0]);
    }
    forall x | x in ks && x != ks[0]
      ensures x in ks[1..]
    {
      var i :| 0 <= i < |ks| && ks[i] == x;
      assert ks[1..][i - 1] == x;
    }
  }

  // ---------------------------------------------------------------- encoding

  function Pairs(ks: seq<string>, m: map<string, string>): seq<byte>
    requires forall k :: k in ks ==> k in m
  {
    if ks == [] then [] else Text32(ks[0]) + Text32(m[ks[0]]) + Pairs(ks[1..], m)
  }

  lemma ContentsKeys(e: Entries)
    requires NoRepeats(Keys(e))
    ensures forall k :: k in Contents(e) <==> k in Keys(e)
  {
    forall k | k in Keys(e)
      ensures k in Contents(e)
    {
      var i :| 0 <= i < |e| && Keys(e)[i] == k;
      assert forall j :: 0 <= j < |e| && e[j].0 == e[i].0 ==> j == i by {
        forall j | 0 <= j < |e| && e[j].0 == e[i].0
          ensures j == i
        {
          assert Keys(e)[j] == Keys(e)[i];
        }
      }
    }
    forall k | k in Contents(e)
      ensures k in Keys(e)
    {
      var i :| 0 <= i < |e| && e[i].0 == k;
      assert Keys(e)[i] == k;
    }
  }

  lemma SortedKeysAreKeys(o: Order, e: Entries)
    requires NoRepeats(Keys(e))
    ensures forall k :: k in Sort(o, Keys(e)) <==> k in Contents(e)
    ensures Sorted(o, Sort(o, Keys(e)))
  {
    SortSorts(o, Keys(e));
    ContentsKeys(e);
  }

  /** The bytes of a string map whose keys are written in the given order. */
  ghost function MapBytes(o: Order, e: Entries): seq<byte>
    requires NoRepeats(Keys(e))
  {
    SortedKeysAreKeys(o, e);
    Length32(|e|) + Pairs(Sort(o, Keys(e)), Contents(e))
  }

  /** The order in which the properties were set does not show. */
  lemma OnlyContentsMatter(o: Order, e: Entries, f: Entries)
    requires NoRepeats(Keys(e)) && NoRepeats(Keys(f)) && Contents(e) == Contents(f)
    ensures MapBytes(o, e) == MapBytes(o, f)
  {
    SortedKeysAreKeys(o, e);
    SortedKeysAreKeys(o, f);
    SortedIsUnique(o, Sort(o, Keys(e)), Sort(o, Keys(f)));
    assert |Sort(o, Keys(e))| == |e| && |Sort(o, Keys(f))| == |f|;
  }

  // ---------------------------------------------------------------- unique decoding

  predicate Short(s: string) {
    |Utf8(s)| < U32
  }

  ghost predicate Small(e: Entries) {
    |e| < U32 && forall i :: 0 <= i < |e| ==> Short(e[i].0) && Short(e[i].1)
  }

  /** A length-prefixed text is told apart from what follows it. */
  lemma TextIsPrefixFree(s: string, t: string, x: seq<byte>, y: seq<byte>)
    requires Short(s) && Short(t) && Text32(s) + x == Text32(t) + y
    ensures s == t && x == y
  {
    hide Length32, Utf8;
    var a, b := Utf8(s), Utf8(t);
    var i, j := Length32(|a|), Length32(|b|);
    assert i + a + x == i + (a + x) && j + b + y == j + (b + y);
    SameHead(i, j, a + x, b + y);
    LengthsDiffer(|a|, |b|);
    SameHead(a, b, x, y);
    Utf8IsInjective(s, t);
  }

  lemma FirstPair(ks: seq<string>, m: map<string, string>, x: seq<byte>)
    requires ks != [] && forall k :: k in ks ==> k in m
    ensures Pairs(ks, m) + x == Text32(ks[0]) + (Text32(m[ks[0]]) + (Pairs(ks[1..], m) + x))
  {
  }

  lemma SameHead(p: seq<byte>, q: seq<byte>, x: seq<byte>, y: seq<byte>)
    requires |p| == |q| && p + x == q + y
    ensures p == q && x == y
  {
    assert p == (p + x)[..|p|] && q == (q + y)[..|q|];
    assert x == (p + x)[|p|..] && y == (q + y)[|q|..];
  }

  lemma {:induction false} PairsAreUnique(a: seq<string>, m: map<string, string>, b: seq<string>, n: map<string, string>,
                                          x: seq<byte>, y: seq<byte>)
    requires |a| == |b| && (forall k :: k in a ==> k in m && Short(k) && Short(m[k])) && (forall k :: k in b ==> k in n && Short(k) && Short(n[k]))
    requires Pairs(a, m) + x == Pairs(b, n) + y
    ensures a == b && x == y && forall k :: k in a ==> m[k] == n[k]
  {
    if a == [] {
      assert Pairs(a, m) + x == x && Pairs(b, n) + y == y;
    } else {
      hide Text32, Short, Pairs;
      var s, t := Pairs(a[1..], m), Pairs(b[1..], n);
      FirstPair(a, m, x);
      FirstPair(b, n, y);
      TextIsPrefixFree(a[0], b[0], Text32(m[a[0]]) + (s + x), Text32(n[b[0]]) + (t + y));
      TextIsPrefixFree(m[a[0]], n[b[0]], s + x, t + y);
      PairsAreUnique(a[1..], m, b[1..], n, x, y);
      assert a == [a[0]] + a[1..] && b == [b[0]] + b[1..];
    }
  }

  lemma ShortContents(e: Entries)
    requires Small(e) && NoRepeats(Keys(e))
    ensures forall k :: k in Contents(e) ==> Short(k) && Short(Contents(e)[k])
  {
    forall k | k in Contents(e)
      ensures Short(k) && Short(Contents(e)[k])
    {
      var i :| 0 <= i < |e| && e[i].0 == k && Contents(e)[k] == e[i].1;
    }
  }

  /** Keys, values, and whatever follows can be read back from the bytes, in whichever order either side sorted. */
  lemma MapIsPrefixFree(o: Order, e: Entries, p: Order, f: Entries, x: seq<byte>, y: seq<byte>)
    requires NoRepeats(Keys(e)) && NoRepeats(Keys(f)) && Small(e) && Small(f)
    requires MapBytes(o, e) + x == MapBytes(p, f) + y
    ensures Contents(e) == Contents(f) && x == y && Sort(o, Keys(e)) == Sort(p, Keys(f))
  {
    SortedKeysAreKeys(o, e);
    SortedKeysAreKeys(p, f);
    ShortContents(e);
    ShortContents(f);
    var a, b := Sort(o, Keys(e)), Sort(p, Keys(f));
    hide Short, Sort, Pairs, Length32, Contents;
    CountedPairsAreUnique(a, Contents(e), b, Contents(f), x, y);
    SameContents(a, e, f);
  }

  /** The count first, then that many pairs. */
  lemma CountedPairsAreUnique(a: seq<string>, m: map<string, string>, b: seq<string>, n: map<string, string>,
                              x: seq<byte>, y: seq<byte>)
    requires |a| < U32 && forall k :: k in a ==> k in m && Short(k) && Short(m[k])
    requires |b| < U32 && forall k :: k in b ==> k in n && Short(k) && Short(n[k])
    requires Length32(|a|) + Pairs(a, m) + x == Length32(|b|) + Pairs(b, n) + y
    ensures a == b && x == y && forall k :: k in a ==> m[k] == n[k]
  {
    hide Length32, Short, Pairs;
    var i, j := Length32(|a|), Length32(|b|);
    assert i + Pairs(a, m) + x == i + (Pairs(a, m) + x);
    assert j + Pairs(b, n) + y == j + (Pairs(b, n) + y);
    SameHead(i, j, Pairs(a, m) + x, Pairs(b, n) + y);
    LengthsDiffer(|a|, |b|);
    PairsAreUnique(a, m, b, n, x, y);
  }

  lemma SameContents(ks: seq<string>, e: Entries, f: Entries)
    requires forall k :: k in ks <==> k in Contents(e)
    requires forall k :: k in ks <==> k in Contents(f)
    requires forall k :: k in ks ==> Contents(e)[k] == Contents(f)[k]
    ensures Contents(e) == Contents(f)
  {
    hide Contents;
  }

  // ---------------------------------------------------------------- the two orders

  ghost predicate NoInversion(ks: seq<string>) {
    forall s, t :: s in ks && t in ks ==> !Inverted(s, t)
  }

  lemma {:induction false} NotInvertedWithItself(s: string)
    ensures !Inverted(s, s)
  {
    if s != [] { NotInvertedWithItself(s[1..]); }
  }

  /** The two sorts agree exactly when no two keys are inverted. */
  lemma SortsAgreeIff(ks: seq<string>)
    requires NoRepeats(ks)
    ensures Sort(JavaScript, ks) == Sort(Rust, ks) <==> NoInversion(ks)
  {
    var a, b := Sort(JavaScript, ks), Sort(Rust, ks);
    SortSorts(JavaScript, ks);
    SortSorts(Rust, ks);
    if NoInversion(ks) {
      forall i, j | 0 <= i < j < |a|
        ensures Before(Rust, a[i], a[j])
      {
        assert Before(JavaScript, a[i], a[j]);
        BeforeIsStrictTotal(JavaScript, a[i], a[i]);
        OrdersDisagreeIffInverted(a[i], a[j]);
      }
      SortedIsUnique(Rust, a, b);
    }
    if a == b {
      forall s, t | s in ks && t in ks
        ensures !Inverted(s, t)
      {
        var i :| 0 <= i < |a| && a[i] == s;
        var j :| 0 <= j < |a| && a[j] == t;
        if i < j {
          SortedBothWays(a, i, j);
          OrdersDisagreeIffInverted(s, t);
        } else if j < i {
          SortedBothWays(a, j, i);
          OrdersDisagreeIffInverted(s, t);
        } else {
          NotInvertedWithItself(s);
        }
      }
    }
  }

  lemma SortedBothWays(a: seq<string>, i: nat, j: nat)
    requires Sorted(JavaScript, a) && Sorted(Rust, a) && i < j < |a|
    ensures a[i] != a[j] && Before16(a[i], a[j]) && Before8(a[i], a[j])
    ensures !Before16(a[j], a[i]) && !Before8(a[j], a[i])
  {
    assert Before(JavaScript, a[i], a[j]) && Before(Rust, a[i], a[j]);
    BeforeIsStrictTotal(JavaScript, a[i], a[j]);
    BeforeIsStrictTotal(Rust, a[i], a[j]);
  }

  /** The client's bytes are those of a Rust `BTreeMap` exactly when no two keys are inverted. */
  lemma SameAsRustIff(e: Entries)
    requires NoRepeats(Keys(e)) && Small(e)
    ensures MapBytes(JavaScript, e) == MapBytes(Rust, e) <==> NoInversion(Keys(e))
  {
    SortsAgreeIff(Keys(e));
    if MapBytes(JavaScript, e) == MapBytes(Rust, e) {
      MapIsPrefixFree(JavaScript, e, Rust, e, [], []);
    }
  }

  /** Two keys whose orders differ: the last character of the basic plane, and the first beyond it. */
  lemma OrdersDiffer()
    ensures var e := [("\U{FFFF}", ""), ("\U{10000}", "")];
      NoRepeats(Keys(e)) && Small(e) && MapBytes(JavaScript, e) != MapBytes(Rust, e)
  {
    var s, t := "\U{FFFF}", "\U{10000}";
    var e := [(s, ""), (t, "")];
    assert Keys(e)[0] == s && Keys(e)[1] == t && s[0] != t[0];
    assert |Utf8(s)| == 3 by { assert s[1..] == []; }
    assert |Utf8(t)| == 4 by { assert t[1..] == []; }
    assert Inverted(s, t) && s in Keys(e) && t in Keys(e);
    SameAsRustIff(e);
  }

  // ---------------------------------------------------------------- the writer

  lemma NextPair(start: seq<byte>, ks: seq<string>, m: map<string, string>)
    requires ks != [] && forall k :: k in ks ==> k in m
    ensures start + Pairs(ks, m) == start + Text32(ks[0]) + Text32(m[ks[0]]) + Pairs(ks[1..], m)
  {
  }

  /** A missing map is written as an empty one. */
  method WriteStringMap(buf: Buffer, entries: Option<Entries>)
    requires entries.Some? ==> NoRepeats(Keys(entries.value))
    modifies buf
    ensures buf.bytes == old(buf.bytes) + MapBytes(JavaScript, if entries.Some? then entries.value else [])
  {
    hide MapBytes;
    WriteEntries(buf, if entries.Some? then entries.value else []);
  }

  /** Sorted keys, then key and value one pair after the other. */
  method WriteEntries(buf: Buffer, e: Entries)
    requires NoRepeats(Keys(e))
    modifies buf
    ensures buf.bytes == old(buf.bytes) + MapBytes(JavaScript, e)
  {
    hide Sort, Contents, Length32, Pairs, Sorted, Keys, NoRepeats;
    var keys := Sort(JavaScript, Keys(e));
    SortedKeysAreKeys(JavaScript, e);
    WriteCount(buf, |keys|);
    WritePairs(buf, keys, Contents(e));
    assert old(buf.bytes) + Length32(|keys|) + Pairs(keys, Contents(e))
        == old(buf.bytes) + (Length32(|keys|) + Pairs(keys, Contents(e)));
  }

  method WriteCount(buf: Buffer, n: nat)
    modifies buf
    ensures buf.bytes == old(buf.bytes) + Length32(n)
  {
    buf.WriteU32LE(n);
  }

  method WritePairs(buf: Buffer, keys: seq<string>, m: map<string, string>)
    requires forall k :: k in keys ==> k in m
    modifies buf
    ensures buf.bytes == old(buf.bytes) + Pairs(keys, m)
  {
    hide Text32, Pairs;
    ghost var all := buf.bytes + Pairs(keys, m);
    for i := 0 to |keys|
      invariant all == buf.bytes + Pairs(keys[i..], m)
    {
      NextPair(buf.bytes, keys[i..], m);
      buf.WriteString(keys[i]);
      buf.WriteString(m[keys[i]]);
      assert keys[i..][1..] == keys[i + 1..];
    }
    NoPairs(m);
  }

  lemma NoPairs(m: map<string, string>)
    ensures Pairs([], m) == []
  {
  }

  /** The payload of an agent registration. */
  ghost function Registration(name: string, metadata: Entries): seq<byte>
    requires NoRepeats(Keys(metadata))
  {
    Text32(name) + MapBytes(JavaScript, metadata)
  }

  method EncodeAgentRegisterPayload(name: string, metadata: Entries) returns (r: seq<byte>)
    requires NoRepeats(Keys(metadata))
    ensures r == Registration(name, metadata)
  {
    hide Text32, MapBytes;
    var buf := new Buffer();
    buf.WriteString(name);
    WriteStringMap(buf, Some(metadata));
    return buf.bytes;
  }

  /** Registrations have the same payload exactly when name and metadata are the same. */
  lemma RegistrationIsInjective(name: string, e: Entries, other: string, f: Entries)
    requires NoRepeats(Keys(e)) && NoRepeats(Keys(f)) && Small(e) && Small(f) && Short(name) && Short(other)
    ensures Registration(name, e) == Registration(other, f) <==> name == other && Contents(e) == Contents(f)
  {
    if name == other && Contents(e) == Contents(f) {
      OnlyContentsMatter(JavaScript, e, f);
    }
    if Registration(name, e) == Registration(other, f) {
      TextIsPrefixFree(name, other, MapBytes(JavaScript, e), MapBytes(JavaScript, f));
      MapIsPrefixFree(JavaScript, e, JavaScript, f, [], []);
    }
  }

  /** Keys and values, one pair after the other, each behind its length. */
  function InGivenOrder(e: Entries): seq<byte> {
    if e == [] then [] else Vec32(Utf8(e[0].0)) + Vec32(Utf8(e[0].1)) + InGivenOrder(e[1..])
  }

  lemma ContentOf(e: Entries, i: nat)
    requires NoRepeats(Keys(e)) && i < |e|
    ensures e[i].0 in Contents(e) && Contents(e)[e[i].0] == e[i].1
  {
    forall j | 0 <= j < |e| && e[j].0 == e[i].0
      ensures j == i
    {
      assert Keys(e)[j] == Keys(e)[i];
    }
  }

  lemma {:induction false} PairsFrom(e: Entries, i: nat)
    requires NoRepeats(Keys(e)) && i <= |e|
    ensures forall k :: k in Keys(e)[i..] ==> k in Contents(e)
    ensures Pairs(Keys(e)[i..], Contents(e)) == InGivenOrder(e[i..])
    decreases |e| - i
  {
    ContentsKeys(e);
    hide Contents, NoRepeats, Vec32, Utf8;
    if i < |e| {
      ContentOf(e, i);
      PairsFrom(e, i + 1);
      assert Keys(e)[i..][1..] == Keys(e)[i + 1..] && e[i..][1..] == e[i + 1..];
    } else {
      assert Keys(e)[i..] == [] && e[i..] == [];
    }
  }

  /** The layout: the name behind its length, the number of pairs, and the pairs by key; given in that order they are written as
    * they stand. */
  lemma SortedLayout(name: string, e: Entries)
    requires NoRepeats(Keys(e)) && forall i, j :: 0 <= i < j < |e| ==> Before16(e[i].0, e[j].0)
    ensures Registration(name, e) == Vec32(Utf8(name)) + (Length32(|e|) + InGivenOrder(e))
  {
    var keys := Keys(e);
    SortSorts(JavaScript, keys);
    assert Sorted(JavaScript, keys);
    SortedIsUnique(JavaScript, Sort(JavaScript, keys), keys);
    PairsFrom(e, 0);
    assert keys[0..] == keys && e[0..] == e;
    hide Pairs, InGivenOrder, Vec32, Contents, Length32, Utf8;
  }
}
