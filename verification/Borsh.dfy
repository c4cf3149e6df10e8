/** The Borsh wire format of transactions and metadata, as the TypeScript and Python clients write it. */
module Borsh {
  import opened Common
  import opened Bytes
  import opened Text

  const U16: nat := 0x1_0000
  const U32: nat := 0x1_0000_0000

  // ---------------------------------------------------------------- layout

  function Text32(s: string): seq<byte> {
    Vec32(Utf8(s))
  }

  /** A length in four bytes, reduced to 32 bits as the writers do. */
  function Length32(n: nat): (r: seq<byte>)
    ensures |r| == 4
  {
    Le(n % U32, 4)
  }

  function Vec32(data: seq<byte>): seq<byte> {
    Length32(|data|) + data
  }

  lemma LengthsDiffer(m: nat, n: nat)
    requires m < U32 && n < U32 && Length32(m) == Length32(n)
    ensures m == n
  {
    Widths();
    Fits(m);
    Fits(n);
    LeRoundTrip(m, 4);
    LeRoundTrip(n, 4);
  }

  /** Fields as the clients hold them: nothing bounds the numbers or the lengths of the arrays. */
  datatype Transaction = Transaction(txType: int, from: seq<byte>, nonce: int, payload: seq<byte>, signature: seq<byte>)
  {
    predicate WellSized() {
      && 0 <= txType < 256 && |from| == 32 && 0 <= nonce < U64_LIMIT
      && |payload| < U32 && |signature| == 64
    }
  }

  function Signable(txType: int, from: seq<byte>, nonce: int, payload: seq<byte>): seq<byte> {
    [txType % 256] + from + Le(nonce % U64_LIMIT, 8) + payload
  }

  function Serialized(tx: Transaction): seq<byte> {
    [tx.txType % 256] + tx.from + Le(tx.nonce % U64_LIMIT, 8) + Vec32(tx.payload) + tx.signature
  }

  /** Reads the documented layout; nothing may be missing or left over. */
  function Parse(bs: seq<byte>): Option<Transaction> {
    if |bs| < 45 then None
    else
      var n := FromLe(bs[41..45]);
      if |bs| != 45 + n + 64 then None
      else Some(Transaction(bs[0], bs[1..33], FromLe(bs[33..41]), bs[45..45 + n], bs[45 + n..]))
  }

  // ---------------------------------------------------------------- round trips

  lemma SerializedParts(tx: Transaction)
    requires |tx.from| == 32
    ensures var bs, n := Serialized(tx), |tx.payload|;
      && |bs| == 45 + n + |tx.signature|
      && bs[0] == tx.txType % 256 && bs[1..33] == tx.from && bs[33..41] == Le(tx.nonce % U64_LIMIT, 8)
      && bs[41..45] == Length32(n) && bs[45..45 + n] == tx.payload && bs[45 + n..] == tx.signature
  {
  }

  /** Parsing inverts serialization. */
  lemma ParseInvertsSerialize(tx: Transaction)
    requires tx.WellSized()
    ensures Parse(Serialized(tx)) == Some(tx)
  {
    SerializedParts(tx);
    Widths();
    LeRoundTrip(tx.nonce, 8);
    LeRoundTrip(|tx.payload|, 4);
  }

  lemma NonceBack(bs: seq<byte>)
    requires |bs| == 8
    ensures FromLe(bs) < U64_LIMIT && Le(FromLe(bs) % U64_LIMIT, 8) == bs
  {
    hide Le, FromLe, Pow256;
    Widths();
    FromLeRoundTrip(bs);
    var n := FromLe(bs);
    assert n % U64_LIMIT == n;
  }

  lemma LengthBack(bs: seq<byte>)
    requires |bs| == 4
    ensures FromLe(bs) < U32 && Length32(FromLe(bs)) == bs
  {
    hide Le, FromLe, Pow256;
    Widths();
    FromLeRoundTrip(bs);
    var n := FromLe(bs);
    assert n % U32 == n;
  }

  /** Whatever parses is well-sized, and is the serialization of what it parses to: the format is canonical. */
  lemma SerializeInvertsParse(bs: seq<byte>)
    requires Parse(bs).Some?
    ensures Parse(bs).value.WellSized() && Serialized(Parse(bs).value) == bs
  {
    hide Le, FromLe, Pow256, Length32;
    var tx, n := Parse(bs).value, FromLe(bs[41..45]);
    NonceBack(bs[33..41]);
    LengthBack(bs[41..45]);
    assert Vec32(tx.payload) == bs[41..45] + bs[45..45 + n];
    assert Serialized(tx) == [bs[0]] + bs[1..33] + bs[33..41] + (bs[41..45] + bs[45..45 + n]) + bs[45 + n..];
    Pieces(bs, n);
  }

  lemma Pieces(bs: seq<byte>, n: nat)
    requires |bs| >= 45 + n
    ensures bs == [bs[0]] + bs[1..33] + bs[33..41] + (bs[41..45] + bs[45..45 + n]) + bs[45 + n..]
  {
  }

  /** Transactions with senders of one length sign the same bytes exactly when they agree on payload, sender, type and nonce modulo their widths. */
  lemma SignableIsInjective(a: Transaction, b: Transaction)
    requires |a.from| == |b.from|
    ensures Signable(a.txType, a.from, a.nonce, a.payload) == Signable(b.txType, b.from, b.nonce, b.payload)
       <==> a.from == b.from && a.payload == b.payload && a.txType % 256 == b.txType % 256 && a.nonce % U64_LIMIT == b.nonce % U64_LIMIT
  {
    var s, t := Signable(a.txType, a.from, a.nonce, a.payload), Signable(b.txType, b.from, b.nonce, b.payload);
    var n := |a.from|;
    assert s[0] == a.txType % 256 && s[1..n + 1] == a.from && s[n + 1..n + 9] == Le(a.nonce % U64_LIMIT, 8) && s[n + 9..] == a.payload;
    assert t[0] == b.txType % 256 && t[1..n + 1] == b.from && t[n + 1..n + 9] == Le(b.nonce % U64_LIMIT, 8) && t[n + 9..] == b.payload;
    Widths();
    LeRoundTrip(a.nonce % U64_LIMIT, 8);
    LeRoundTrip(b.nonce % U64_LIMIT, 8);
  }

  /** Signed is the serialization without the payload's length and the signature: type, sender, eight bytes of nonce, payload. */
  lemma SignedPart(tx: Transaction)
    ensures var bs, signed, n := Serialized(tx), Signable(tx.txType, tx.from, tx.nonce, tx.payload), |tx.from|;
      && |signed| == n + 9 + |tx.payload| && |bs| == |signed| + 4 + |tx.signature|
      && signed[..n + 9] == bs[..n + 9] && signed[n + 9..] == tx.payload == bs[n + 13..n + 13 + |tx.payload|]
      && signed[0] == tx.txType % 256 && signed[1..n + 1] == tx.from && FromLe(signed[n + 1..n + 9]) == tx.nonce % U64_LIMIT
  {
    var signed, n := Signable(tx.txType, tx.from, tx.nonce, tx.payload), |tx.from|;
    Widths();
    LeRoundTrip(tx.nonce % U64_LIMIT, 8);
    assert signed[n + 1..n + 9] == Le(tx.nonce % U64_LIMIT, 8);
  }

  /** Without the sender's length fixed the signed bytes are ambiguous. */
  lemma SenderLengthMatters(from: seq<byte>, b: byte, nonce: u64, payload: seq<byte>)
    ensures exists m: u64, p: seq<byte> :: Signable(0, from + [b], nonce, payload) == Signable(0, from, m, p)
  {
    var bytes := Le(nonce, 8);
    var m, p := FromLe([b] + bytes[..7]), [bytes[7]] + payload;
    Widths();
    FromLeRoundTrip([b] + bytes[..7]);
    ShiftedSender(from, b, nonce, payload, bytes, m, p);
  }

  lemma ShiftedSender(from: seq<byte>, b: byte, nonce: u64, payload: seq<byte>, bytes: seq<byte>, m: u64, p: seq<byte>)
    requires bytes == Le(nonce, 8) && Le(m, 8) == [b] + bytes[..7] && p == [bytes[7]] + payload
    ensures Signable(0, from + [b], nonce, payload) == Signable(0, from, m, p)
  {
    hide Le;
    Regroup([0], from, [b], bytes, 7, payload);
    assert bytes[7..] == [bytes[7]];
    assert nonce % U64_LIMIT == nonce && m % U64_LIMIT == m;
  }

  lemma Regroup(z: seq<byte>, from: seq<byte>, b: seq<byte>, bytes: seq<byte>, k: nat, payload: seq<byte>)
    requires k <= |bytes|
    ensures z + (from + b) + bytes + payload == z + from + (b + bytes[..k]) + (bytes[k..] + payload)
  {
    assert bytes == bytes[..k] + bytes[k..];
  }

  // ---------------------------------------------------------------- writers

  /** A number as the operands of JavaScript's bit operations see it. */
  function ToInt32(v: int): int {
    (v + 0x8000_0000) % U32 - 0x8000_0000
  }

  /** `(v >> shift) & 0xff`, for a shift by whole bytes. */
  function ByteAt(v: int, divisor: nat): byte
    requires divisor > 0
  {
    ToInt32(v) / divisor % 256
  }

  lemma ByteAtWord(v: int)
    ensures ByteAt(v, 1) == v % U32 % 256 && ByteAt(v, 256) == v % U32 / 256 % 256
    ensures ByteAt(v, 65536) == v % U32 / 65536 % 256 && ByteAt(v, 16777216) == v % U32 / 16777216 % 256
  {
    var n, w := v % U32, ToInt32(v);
    assert w == n || w == n - U32;
    TakeWhole(n, 256, 16777216);
    TakeWhole(n, 65536, 65536);
    TakeWhole(n, 16777216, 256);
  }

  lemma TakeWhole(n: int, d: int, e: int)
    requires d > 0
    ensures (n - d * e) / d == n / d - e
  {
    assert n - d * e == d * (n / d - e) + n % d;
    RemainderIsUnique(n - d * e, d, n / d - e, n % d);
  }

  lemma LeFour(n: nat)
    ensures Le(n, 4) == [n % 256, n / 256 % 256, n / 65536 % 256, n / 16777216 % 256]
    ensures Le(n, 2) == [n % 256, n / 256 % 256]
  {
    assert n / 256 / 256 == n / 65536 && n / 65536 / 256 == n / 16777216;
    assert Le(n / 16777216, 1) == [n / 16777216 % 256];
    assert Le(n / 65536, 2) == [n / 65536 % 256] + Le(n / 16777216, 1);
    assert Le(n / 256, 3) == [n / 256 % 256] + Le(n / 65536, 2);
    assert Le(n / 256, 1) == [n / 256 % 256];
  }

  /** The bytes taken out by shifting and masking are the little-endian ones. */
  lemma LeWord(v: int)
    ensures [ByteAt(v, 1), ByteAt(v, 256), ByteAt(v, 65536), ByteAt(v, 16777216)] == Le(v % U32, 4)
    ensures [ByteAt(v, 1), ByteAt(v, 256)] == Le(v % U16, 2)
    ensures ByteAt(v, 1) == v % 256
  {
    ByteAtWord(v);
    LeFour(v % U32);
    LeFour(v % U16);
    LowHalf(v);
    hide Le, ByteAt;
  }

  lemma LowHalf(v: int)
    ensures v % U32 % 256 == v % 256 == v % U16 % 256
    ensures v % U32 / 256 % 256 == v % U16 / 256 % 256
    ensures (v + U16) % U16 == v % U16
  {
    LowByte(v);
    UpperHalf(v);
    OneTurn(v);
  }

  lemma LowByte(v: int)
    ensures v % U16 % 256 == v % 256
  {
    SplitSquare(v, 256, U16);
    ShiftByte(v % 256, v / 256 % 256);
  }

  lemma UpperHalf(v: int)
    ensures v % U32 % 256 == v % U16 % 256 && v % U32 / 256 % 256 == v % U16 / 256 % 256
  {
    SplitSquare(v, U16, U32);
    AboveHalf(v % U16, v / U16 % U16);
  }

  /** What lies above the second byte shows in neither of the first two. */
  lemma AboveHalf(lo: nat, hi: nat)
    ensures (lo + U16 * hi) % 256 == lo % 256 && (lo + U16 * hi) / 256 % 256 == lo / 256 % 256
  {
    var x := 256 * hi;
    assert U16 * hi == 256 * x;
    ShiftByte(lo, x);
    ShiftByte(lo / 256, hi);
  }

  lemma OneTurn(v: int)
    ensures (v + U16) % U16 == v % U16
  {
    RemainderIsUnique(v + U16, U16, v / U16 + 1, v % U16);
  }

  /** Two numbers side by side. */
  lemma {:induction false} LeAppend(lo: nat, hi: nat, a: nat, b: nat, p: nat)
    requires p == Pow256(a) && lo < p
    ensures Le(lo + p * hi, a + b) == Le(lo, a) + Le(hi, b)
    decreases a
  {
    hide Le, Pow256;
    LeBase(lo);
    if a > 0 {
      var q := Pow256(a - 1);
      var x := q * hi;
      PowStep(a);
      assert p * hi == 256 * x;
      ShiftByte(lo, x);
      LeAppend(lo / 256, hi, a - 1, b, q);
      LeStep(lo, a);
      LeStep(lo + 256 * x, a + b);
      assert [lo % 256] + (Le(lo / 256, a - 1) + Le(hi, b)) == [lo % 256] + Le(lo / 256, a - 1) + Le(hi, b);
    } else {
      assert lo + p * hi == hi && [] + Le(hi, b) == Le(hi, b);
    }
  }

  lemma LeBase(n: nat)
    ensures Le(n, 0) == [] && Pow256(0) == 1
  {
  }

  lemma LeStep(n: nat, width: nat)
    requires width > 0
    ensures Le(n, width) == [n % 256] + Le(n / 256, width - 1)
  {
  }

  lemma PowStep(width: nat)
    requires width > 0
    ensures Pow256(width) == 256 * Pow256(width - 1)
  {
  }

  lemma ShiftByte(lo: nat, x: nat)
    ensures (lo + 256 * x) % 256 == lo % 256 && (lo + 256 * x) / 256 == lo / 256 + x
  {
  }

  /** A remainder by d * d is two remainders by d. */
  lemma SplitSquare(v: int, d: nat, square: nat)
    requires d > 0 && square == d * d
    ensures v % square == v % d + d * (v / d % d)
  {
    var lo, rest := v % d, v / d;
    var hi, q := rest % d, rest / d;
    Distribute(d, q, hi);
    assert v == square * q + (d * hi + lo);
    Within(d, hi, lo);
    RemainderIsUnique(v, square, q, d * hi + lo);
  }

  lemma Distribute(d: int, q: int, r: int)
    ensures d * (d * q + r) == d * d * q + d * r
  {
    assert d * (d * q) == d * d * q;
  }

  lemma Within(d: int, hi: int, lo: int)
    requires 0 <= hi < d && 0 <= lo < d
    ensures 0 <= d * hi + lo < d * d
  {
    assert d * hi <= d * (d - 1);
  }

  lemma LeHalves64(v: int)
    ensures Le(v % U32, 4) + Le(v / U32 % U32, 4) == Le(v % U64_LIMIT, 8)
  {
    hide Le, Pow256;
    Widths();
    SplitSquare(v, U32, U64_LIMIT);
    LeAppend(v % U32, v / U32 % U32, 4, 4, U32);
  }

  lemma LeHalves128(v: int)
    ensures Le(v % U64_LIMIT, 8) + Le(v / U64_LIMIT % U64_LIMIT, 8) == Le(v % U128_LIMIT, 16)
  {
    hide Le, Pow256;
    Widths();
    SplitSquare(v, U64_LIMIT, U128_LIMIT);
    LeAppend(v % U64_LIMIT, v / U64_LIMIT % U64_LIMIT, 8, 8, U64_LIMIT);
  }

  /** The array the writers push to. */
  class Buffer {
    var bytes: seq<byte>

    constructor ()
      ensures bytes == []
    {
      bytes := [];
    }

    method Push(b: byte)
      modifies this
      ensures bytes == old(bytes) + [b]
    {
      bytes := bytes + [b];
    }

    method WriteU8(v: int)
      modifies this
      ensures bytes == old(bytes) + [v % 256]
    {
      LeWord(v);
      Push(ByteAt(v, 1));
    }

    method WriteU16LE(v: int)
      modifies this
      ensures bytes == old(bytes) + Le(v % U16, 2)
    {
      LeWord(v);
      Push(ByteAt(v, 1));
      Push(ByteAt(v, 256));
      assert bytes == old(bytes) + [ByteAt(v, 1), ByteAt(v, 256)];
    }

    /** A negative number is written as its two's complement. */
    method WriteI16LE(v: int)
      modifies this
      ensures bytes == old(bytes) + Le(v % U16, 2)
    {
      hide Le;
      LowHalf(v);
      WriteU16LE(if v < 0 then v + U16 else v);
    }

    method WriteU32LE(v: int)
      modifies this
      ensures bytes == old(bytes) + Le(v % U32, 4)
    {
      LeWord(v);
      Push(ByteAt(v, 1));
      Push(ByteAt(v, 256));
      Push(ByteAt(v, 65536));
      Push(ByteAt(v, 16777216));
      assert bytes == old(bytes) + [ByteAt(v, 1), ByteAt(v, 256), ByteAt(v, 65536), ByteAt(v, 16777216)];
    }

    method WriteU64LE(v: int)
      modifies this
      ensures bytes == old(bytes) + Le(v % U64_LIMIT, 8)
    {
      hide Le;
      var lo := v % U32;
      var hi := v / U32 % U32;
      WriteU32LE(lo);
      WriteU32LE(hi);
      LeHalves64(v);
      assert lo % U32 == lo && hi % U32 == hi;
      assert bytes == old(bytes) + (Le(lo, 4) + Le(hi, 4));
    }

    method WriteU128LE(v: int)
      modifies this
      ensures bytes == old(bytes) + Le(v % U128_LIMIT, 16)
    {
      hide Le;
      var lo := v % U64_LIMIT;
      var hi := v / U64_LIMIT % U64_LIMIT;
      WriteU64LE(lo);
      WriteU64LE(hi);
      LeHalves128(v);
      assert lo % U64_LIMIT == lo && hi % U64_LIMIT == hi;
      assert bytes == old(bytes) + (Le(lo, 8) + Le(hi, 8));
    }

    method WriteFixedBytes(data: seq<byte>)
      modifies this
      ensures bytes == old(bytes) + data
    {
      for i := 0 to |data|
        invariant bytes == old(bytes) + data[..i]
      {
        Push(data[i]);
      }
    }

    method WriteVecU8(data: seq<byte>)
      modifies this
      ensures bytes == old(bytes) + Vec32(data)
    {
      WriteU32LE(|data|);
      WriteFixedBytes(data);
    }

    method WriteString(s: string)
      modifies this
      ensures bytes == old(bytes) + Text32(s)
    {
      var encoded := Utf8(s);
      WriteU32LE(|encoded|);
      WriteFixedBytes(encoded);
    }
  }

  // ---------------------------------------------------------------- the two clients

  method SignableBytes(tx: Transaction) returns (r: seq<byte>)
    ensures r == Signable(tx.txType, tx.from, tx.nonce, tx.payload)
  {
    var buf := new Buffer();
    buf.WriteU8(tx.txType);
    buf.WriteFixedBytes(tx.from);
    buf.WriteU64LE(tx.nonce);
    buf.WriteFixedBytes(tx.payload);
    return buf.bytes;
  }

  method SerializeTransaction(tx: Transaction) returns (r: seq<byte>)
    ensures r == Serialized(tx)
  {
    var buf := new Buffer();
    buf.WriteU8(tx.txType);
    buf.WriteFixedBytes(tx.from);
    buf.WriteU64LE(tx.nonce);
    buf.WriteVecU8(tx.payload);
    buf.WriteFixedBytes(tx.signature);
    return buf.bytes;
  }

  /** `struct.pack("<Q", v)` and `struct.pack("<I", v)`: an error outside the range. */
  function Packed(v: int, width: nat): Result<seq<byte>, string> {
    if 0 <= v < Pow256(width) then Ok(Le(v, width)) else Err("struct.error")
  }

  /** The Python miner's message: it masks the type, but refuses a nonce out of range. */
  method MinerSignableBytes(txType: int, from: seq<byte>, nonce: int, payload: seq<byte>) returns (r: Result<seq<byte>, string>)
    ensures r == if 0 <= nonce < U64_LIMIT then Ok(Signable(txType, from, nonce, payload)) else Err("struct.error")
  {
    Widths();
    hide Le, Pow256;
    var buf := [txType % 256];
    buf := buf + from;
    var packed := Packed(nonce, 8);
    if packed.Err? { return Err(packed.error); }
    buf := buf + packed.value;
    buf := buf + payload;
    return Ok(buf);
  }

  lemma Fits(n: nat)
    requires n < U32
    ensures n % U32 == n
  {
  }

  lemma LengthThenData(head: seq<byte>, data: seq<byte>)
    requires |data| < U32
    ensures head + Le(|data|, 4) + data == head + Vec32(data)
  {
    hide Le;
    Fits(|data|);
    assert head + Le(|data|, 4) + data == head + (Le(|data|, 4) + data);
  }

  /** The Python miner writes the same signed transaction as the TypeScript client, or raises when nonce or payload are out of range. */
  method BuildTransaction(txType: int, from: seq<byte>, nonce: int, payload: seq<byte>, sign: seq<byte> -> seq<byte>)
    returns (r: Result<seq<byte>, string>)
    ensures r == if 0 <= nonce < U64_LIMIT && |payload| < U32
      then Ok(Serialized(Transaction(txType, from, nonce, payload, sign(Signable(txType, from, nonce, payload)))))
      else Err("struct.error")
  {
    Widths();
    var message := MinerSignableBytes(txType, from, nonce, payload);
    if message.Err? { return message; }
    hide Le, Pow256;
    var signature := sign(message.value);
    var buf := [txType % 256];
    buf := buf + from;
    buf := buf + Packed(nonce, 8).value;
    var length := Packed(|payload|, 4);
    if length.Err? { return Err(length.error); }
    ghost var head := buf;
    buf := buf + length.value;
    buf := buf + payload;
    assert buf == head + Vec32(payload) by { LengthThenData(head, payload); }
    buf := buf + signature;
    hide Vec32;
    assert buf == Serialized(Transaction(txType, from, nonce, payload, signature));
    return Ok(buf);
  }
}
