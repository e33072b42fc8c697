/** Fixed-width and variable-width integers and length-prefixed strings (util/coding.cc, lines 9-194;
    util/coding.h, lines 60-133). */
module Coding {
  import opened DbFormat

  type Byte = b: int | 0 <= b < 256 witness 0
  type Bytes = seq<Byte>

  const TWO_32 := 0x1_0000_0000
  const TWO_64 := 0x1_0000_0000_0000_0000

  type Word = w: int | 0 <= w < TWO_32 witness 0
  type Word64 = w: int | 0 <= w < TWO_64 witness 0

  // ---------- fixed width ----------

  /** Little-endian. */
  function EncodeFixed32(w: Word): (r: Bytes)
    ensures |r| == 4
  {
    [w % 0x100, w / 0x100 % 0x100, w / 0x1_0000 % 0x100, w / 0x100_0000]
  }

  function DecodeFixed32(b: Bytes): Word
    requires |b| >= 4
  {
    var b0: int, b1: int, b2: int, b3: int := b[0], b[1], b[2], b[3];
    b0 + b1 * 0x100 + b2 * 0x1_0000 + b3 * 0x100_0000
  }

  lemma Fixed32RoundTrip(w: Word, rest: Bytes)
    ensures DecodeFixed32(EncodeFixed32(w) + rest) == w
  {
    var b := EncodeFixed32(w) + rest;
    assert b[0] == w % 0x100 && b[1] == w / 0x100 % 0x100 && b[2] == w / 0x1_0000 % 0x100 && b[3] == w / 0x100_0000;
    assert w == w / 0x100 * 0x100 + w % 0x100;
    assert w / 0x100 == w / 0x1_0000 * 0x100 + w / 0x100 % 0x100;
    assert w / 0x1_0000 == w / 0x100_0000 * 0x100 + w / 0x1_0000 % 0x100;
  }

  function EncodeFixed64(w: Word64): (r: Bytes)
    ensures |r| == 8
  {
    EncodeFixed32(w % TWO_32) + EncodeFixed32(w / TWO_32)
  }

  function DecodeFixed64(b: Bytes): Word64
    requires |b| >= 8
  {
    var lo: int, hi: int := DecodeFixed32(b), DecodeFixed32(b[4..]);
    lo + hi * TWO_32
  }

  lemma Fixed64RoundTrip(w: Word64, rest: Bytes)
    ensures DecodeFixed64(EncodeFixed64(w) + rest) == w
  {
    var hi := EncodeFixed32(w / TWO_32) + rest;
    Fixed32RoundTrip(w % TWO_32, hi);
    Fixed32RoundTrip(w / TWO_32, rest);
    assert EncodeFixed64(w) + rest == EncodeFixed32(w % TWO_32) + hi;
    assert (EncodeFixed64(w) + rest)[4..] == hi;
  }

  // ---------- varints ----------

  /** Seven bits a byte, low bits first; the top bit says that more bytes follow. */
  function Varint(v: nat): (r: Bytes)
    ensures |r| >= 1
  {
    if v < 128 then [v] else [v % 128 + 128] + Varint(v / 128)
  }

  /** The integer at the beginning of `b`, in at most `max` bytes, and the number of bytes it takes. */
  function ReadVarint(b: Bytes, max: nat): (r: Option<(nat, nat)>)
    ensures r.Some? ==> 1 <= r.value.1 <= |b| && r.value.1 <= max
    decreases max
  {
    if max == 0 || b == [] then None
    else if b[0] < 128 then Some((b[0], 1))
    else
      match ReadVarint(b[1..], max - 1)
      case None => None
      case Some((v, n)) => var d: int := b[0]; Some((d - 128 + 128 * v, n + 1))
  }

  function Power128(n: nat): (r: nat)
    ensures r > 0
  {
    if n == 0 then 1 else 128 * Power128(n - 1)
  }

  lemma {:induction false} VarintRoundTrip(v: nat, rest: Bytes, max: nat)
    requires max > 0 && v < Power128(max)
    ensures ReadVarint(Varint(v) + rest, max) == Some((v, |Varint(v)|))
    decreases max
  {
    var b := Varint(v) + rest;
    if v >= 128 {
      assert b[1..] == Varint(v / 128) + rest;
      assert Power128(max) == 128 * Power128(max - 1) && Power128(0) == 1;
      VarintRoundTrip(v / 128, rest, max - 1);
    }
  }

  lemma {:induction false} VarintLength(v: nat, max: nat)
    requires max > 0 && v < Power128(max)
    ensures |Varint(v)| <= max
    decreases max
  {
    if v >= 128 {
      assert Power128(max) == 128 * Power128(max - 1) && Power128(0) == 1;
      VarintLength(v / 128, max - 1);
    }
  }

  lemma Powers()
    ensures Power128(5) == 0x8_0000_0000 && Power128(10) == 0x40_0000_0000_0000_0000
  {
    assert Power128(0) == 1 && Power128(1) == 128 && Power128(2) == 0x4000;
    assert Power128(3) == 0x20_0000 && Power128(4) == 0x1000_0000 && Power128(5) == 0x8_0000_0000;
    assert Power128(6) == 0x400_0000_0000 && Power128(7) == 0x2_0000_0000_0000;
    assert Power128(8) == 0x100_0000_0000_0000 && Power128(9) == 0x8000_0000_0000_0000;
  }

  /** The encoder of 32-bit integers is written out case by case. */
  method EncodeVarint32(v: Word) returns (r: Bytes)
    ensures r == Varint(v)
  {
    if v < 0x80 {
      r := [v];
    } else if v < 0x4000 {
      r := [v % 128 + 128, v / 0x80];
    } else if v < 0x20_0000 {
      r := [v % 128 + 128, v / 0x80 % 128 + 128, v / 0x4000];
      assert v / 0x4000 == v / 0x80 / 128;
      assert Varint(v / 0x80) == [v / 0x80 % 128 + 128] + Varint(v / 0x4000);
    } else if v < 0x1000_0000 {
      r := [v % 128 + 128, v / 0x80 % 128 + 128, v / 0x4000 % 128 + 128, v / 0x20_0000];
      assert v / 0x4000 == v / 0x80 / 128 && v / 0x20_0000 == v / 0x4000 / 128;
      assert Varint(v / 0x4000) == [v / 0x4000 % 128 + 128] + Varint(v / 0x20_0000);
      assert Varint(v / 0x80) == [v / 0x80 % 128 + 128] + Varint(v / 0x4000);
    } else {
      r := [v % 128 + 128, v / 0x80 % 128 + 128, v / 0x4000 % 128 + 128, v / 0x20_0000 % 128 + 128, v / 0x1000_0000];
      assert v / 0x4000 == v / 0x80 / 128 && v / 0x20_0000 == v / 0x4000 / 128;
      assert v / 0x1000_0000 == v / 0x20_0000 / 128;
      assert Varint(v / 0x20_0000) == [v / 0x20_0000 % 128 + 128] + Varint(v / 0x1000_0000);
      assert Varint(v / 0x4000) == [v / 0x4000 % 128 + 128] + Varint(v / 0x20_0000);
      assert Varint(v / 0x80) == [v / 0x80 % 128 + 128] + Varint(v / 0x4000);
    }
  }

  method EncodeVarint64(value: Word64) returns (r: Bytes)
    ensures r == Varint(value)
  {
    r := [];
    var v: nat := value;
    while v >= 128
      invariant r + Varint(v) == Varint(value)
    {
      assert r + ([v % 128 + 128] + Varint(v / 128)) == (r + [v % 128 + 128]) + Varint(v / 128);
      r := r + [v % 128 + 128];
      v := v / 128;
    }
    r := r + [v];
  }

  /** After `n` bytes the number is `result` and what the remaining bytes add to it. */
  ghost predicate Pending(b: Bytes, max: nat, n: nat, result: nat, unit: nat)
    requires n <= |b| && n <= max
  {
    ReadVarint(b, max) == match ReadVarint(b[n..], max - n)
                          case None => None
                          case Some((v, m)) => Some((result + unit * v, n + m))
  }

  lemma NothingRead(b: Bytes, max: nat)
    ensures Pending(b, max, 0, 0, 1)
  {
    assert b[0..] == b;
  }

  lemma ReadOut(b: Bytes, max: nat, n: nat, result: nat, unit: nat)
    requires n <= |b| && n <= max && Pending(b, max, n, result, unit) && (n == |b| || n == max)
    ensures ReadVarint(b, max) == None
  {
  }

  lemma NextDigit(b: Bytes, max: nat, n: nat)
    requires n < |b| && n < max
    ensures ReadVarint(b[n..], max - n) ==
            if b[n] < 128 then Some((b[n], 1))
            else match ReadVarint(b[n + 1..], max - n - 1)
                 case None => None
                 case Some((v, m)) => Some((b[n] % 128 + 128 * v, m + 1))
  {
    assert b[n..][1..] == b[n + 1..];
  }

  lemma NextPending(b: Bytes, max: nat, n: nat, result: nat, unit: nat)
    requires n < |b| && n < max && Pending(b, max, n, result, unit)
    ensures b[n] < 128 ==> ReadVarint(b, max) == Some((result + unit * (b[n] % 128), n + 1))
    ensures b[n] >= 128 ==> Pending(b, max, n + 1, result + unit * (b[n] % 128), 128 * unit)
  {
    hide ReadVarint;
    NextDigit(b, max, n);
    if b[n] >= 128 {
      match ReadVarint(b[n + 1..], max - n - 1)
      case None =>
      case Some((v, m)) =>
        Distribute(result, unit, b[n] % 128, v);
    }
  }

  /** The loop of both decoders; `max` is 5 or 10 bytes and `modulus` the range of the result, beyond which
      bits are lost. */
  method GetVarint(data: Bytes, start: nat, limit: nat, max: nat, modulus: nat) returns (r: Option<(nat, nat)>)
    requires start <= limit <= |data| && modulus > 0
    ensures r == match ReadVarint(data[start..limit], max)
                 case None => None
                 case Some((v, n)) => Some((v % modulus, start + n))
  {
    hide ReadVarint, Pending;
    ghost var all := data[start..limit];
    var result: nat, unit: nat, n: nat, p := 0, 1, 0, start;
    NothingRead(all, max);
    while n < max && p < limit
      invariant n <= max && p == start + n <= limit
      invariant Pending(all, max, n, result, unit)
    {
      var byte: nat := data[p];
      assert all[n] == data[p];
      NextPending(all, max, n, result, unit);
      result := result + unit * (byte % 128);
      if byte < 128 {
        return Some((result % modulus, p + 1));
      }
      unit := 128 * unit;
      n := n + 1;
      p := p + 1;
    }
    ReadOut(all, max, n, result, unit);
    r := None;
  }

  lemma Distribute(result: nat, unit: nat, digit: nat, v: nat)
    ensures result + unit * (digit + 128 * v) == result + unit * digit + unit * 128 * v
  {
  }

  // ---------- length-prefixed strings ----------

  function PutLengthPrefixed(s: Bytes): Bytes {
    Varint(|s|) + s
  }

  /** The string at the beginning of `b`, and the number of bytes that it takes with its length. */
  function GetLengthPrefixed(b: Bytes): (r: Option<(Bytes, nat)>)
    ensures r.Some? ==> 1 <= r.value.1 <= |b|
  {
    match ReadVarint(b, 5)
    case None => None
    case Some((v, n)) =>
      var len := v % TWO_32;
      if n + len <= |b| then Some((b[n..n + len], n + len)) else None
  }

  lemma LengthPrefixedRoundTrip(s: Bytes, rest: Bytes)
    requires |s| < TWO_32
    ensures GetLengthPrefixed(PutLengthPrefixed(s) + rest) == Some((s, |PutLengthPrefixed(s)|))
  {
    Powers();
    VarintRoundTrip(|s|, s + rest, 5);
    assert PutLengthPrefixed(s) + rest == Varint(|s|) + (s + rest);
  }

  // ---------- cut off ----------

  /** A number of which bytes are missing is none. */
  lemma {:induction false} VarintCut(v: nat, k: nat, max: nat)
    requires k < |Varint(v)|
    ensures ReadVarint(Varint(v)[..k], max) == None
    decreases max
  {
    if k > 0 && max > 0 {
      assert Varint(v)[..k][1..] == Varint(v / 128)[..k - 1];
      VarintCut(v / 128, k - 1, max - 1);
    }
  }

  lemma LengthPrefixedCut(s: Bytes, k: nat)
    requires |s| < TWO_32 && k < |PutLengthPrefixed(s)|
    ensures GetLengthPrefixed(PutLengthPrefixed(s)[..k]) == None
  {
    var n := Varint(|s|);
    if k < |n| {
      VarintCut(|s|, k, 5);
      assert PutLengthPrefixed(s)[..k] == n[..k];
    } else {
      Powers();
      VarintRoundTrip(|s|, s[..k - |n|], 5);
      assert PutLengthPrefixed(s)[..k] == n + s[..k - |n|];
    }
  }

  // ---------- which bytes ----------

  /** The number with these digits to the base 256, lowest first. */
  function Digits256(b: Bytes): nat {
    if b == [] then 0 else b[0] + 256 * Digits256(b[1..])
  }

  /** The number with the low seven bits of these bytes as digits, lowest first. */
  function Digits128(b: Bytes): nat {
    if b == [] then 0 else b[0] % 128 + 128 * Digits128(b[1..])
  }

  /** The one string of four bytes with this value, lowest byte first. */
  lemma Fixed32Is(b: Bytes, w: Word)
    ensures b == EncodeFixed32(w) <==> |b| == 4 && Digits256(b) == w
  {
    FourDigits(EncodeFixed32(w));
    Fixed32RoundTrip(w, []);
    assert EncodeFixed32(w) + [] == EncodeFixed32(w);
    if |b| == 4 {
      FourDigits(b);
      FourBytes(b);
    }
  }

  lemma FourDigits(b: Bytes)
    requires |b| == 4
    ensures Digits256(b) == DecodeFixed32(b)
  {
    var c, d, e := b[1..], b[2..], b[3..];
    assert c[1..] == d && d[1..] == e && e[1..] == [];
    assert Digits256(e) == b[3] && Digits256(d) == b[2] + 256 * Digits256(e);
    assert Digits256(c) == b[1] + 256 * Digits256(d);
  }

  lemma FourBytes(b: Bytes)
    requires |b| == 4
    ensures EncodeFixed32(DecodeFixed32(b)) == b
  {
    var w := DecodeFixed32(b);
    var b1: int, b2: int, b3: int := b[1], b[2], b[3];
    assert w / 0x100 == b1 + b2 * 0x100 + b3 * 0x1_0000;
    assert w / 0x1_0000 == b2 + b3 * 0x100;
    assert w / 0x100_0000 == b3;
  }

  lemma Fixed64Is(b: Bytes, w: Word64)
    ensures b == EncodeFixed64(w) <==> |b| == 8 && Digits256(b[..4]) + TWO_32 * Digits256(b[4..]) == w
  {
    var lo, hi := EncodeFixed32(w % TWO_32), EncodeFixed32(w / TWO_32);
    assert EncodeFixed64(w)[..4] == lo && EncodeFixed64(w)[4..] == hi;
    Fixed32Is(lo, w % TWO_32);
    Fixed32Is(hi, w / TWO_32);
    if |b| == 8 {
      FourDigits(b[..4]);
      FourDigits(b[4..]);
      Fixed32Is(b[..4], w % TWO_32);
      Fixed32Is(b[4..], w / TWO_32);
      assert b == b[..4] + b[4..];
    }
  }

  /** The shortest string with this value in which only the last byte has its top bit clear. */
  lemma {:induction false} VarintIs(b: Bytes, v: nat)
    ensures b == Varint(v) <==>
      && b != [] && Digits128(b) == v
      && (forall i :: 0 <= i < |b| ==> (b[i] >= 128 <==> i < |b| - 1))
      && (|b| > 1 ==> b[|b| - 1] != 0)
    decreases |b|
  {
    if |b| > 1 {
      VarintIs(b[1..], v / 128);
      assert Varint(v) == if v < 128 then [v] else [v % 128 + 128] + Varint(v / 128);
      assert forall i :: 0 < i < |b| ==> b[i] == b[1..][i - 1];
      var d: nat := Digits128(b[1..]);
      assert Digits128(b) == v ==> v / 128 == d && v % 128 == b[0] % 128;
      assert b == [b[0]] + b[1..];
      assert v >= 128 ==> Varint(v)[1..] == Varint(v / 128);
    } else if |b| == 1 {
      assert b[1..] == [];
    }
  }
}
