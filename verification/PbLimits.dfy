/** What the decoder refuses (nanopb/pb_decode.c, lines 187-385, 450-760 and 925-1073): numbers and strings that do not fit,
    arrays with too many elements, missing required fields. */
module PbLimits {
  import opened Coding
  import opened DbFormat
  import opened PbFields
  import opened PbEncode
  import opened PbDecode
  import opened PbRoundTrip
  import opened PbWire

  /** 2 to the power of eight times the size. */
  function Values(size: nat): nat {
    if size == 0 then 1 else 256 * Values(size - 1)
  }

  lemma RangeIs(size: nat)
    requires IntegerSize(size)
    ensures Range(size) == Values(size)
  {
    assert Values(1) == 256 && Values(2) == 0x1_0000 && Values(3) == 0x100_0000 && Values(4) == TWO_32;
    assert Values(5) == 256 * TWO_32 && Values(6) == 0x1_0000 * TWO_32 && Values(7) == 0x100_0000 * TWO_32;
    assert Values(8) == TWO_64;
  }

  /** The number is one of `values` numbers around zero. */
  predicate WithinSigned(n: int, values: nat) {
    0 <= 2 * n + values < 2 * values
  }

  /** A number is read into a member of `size` bytes exactly if it fits.  Signed members of less than eight bytes look only
      at the low 32 bits. */
  lemma NumbersFit(size: nat, v: nat, n: int, there: Datum, rest: Bytes)
    requires IntegerSize(size) && v < TWO_64 && -0x8000_0000_0000_0000 <= n < 0x8000_0000_0000_0000
    ensures DecodeDatum(Unsigned(size), there, Varint(v) + rest) ==
            if v < Values(size) then Some((Int(v), |Varint(v)|)) else None
    ensures
      var e := Varint(if n < 0 then -2 * n - 1 else 2 * n);
      DecodeDatum(ZigZag(size), there, e + rest) == if WithinSigned(n, Values(size)) then Some((Int(n), |e|)) else None
    ensures
      var e := Varint(if n < 0 then n + TWO_64 else n);
      var m := if size == 8 then n else AsSigned(n % TWO_32, TWO_32);
      DecodeDatum(Signed(size), there, e + rest) == if WithinSigned(m, Values(size)) then Some((Int(m), |e|)) else None
  {
    hide DecodeDatum, Varint, AsSigned, WithinSigned;
    RangeIs(size);
    UnsignedFits(size, v, there, rest);
    ZigZagFits(size, n, there, rest);
    SignedFits(size, n, there, rest);
  }

  lemma UnsignedFits(size: nat, v: nat, there: Datum, rest: Bytes)
    requires IntegerSize(size) && v < TWO_64
    ensures DecodeDatum(Unsigned(size), there, Varint(v) + rest) ==
            if v < Range(size) then Some((Int(v), |Varint(v)|)) else None
  {
    hide ReadVarint, Varint, Range;
    VarintReads(v, rest);
  }

  lemma NarrowIs(size: nat, n: int)
    requires IntegerSize(size)
    ensures NarrowSigned(n, size) == if WithinSigned(n, Range(size)) then Some(Int(n)) else None
  {
  }

  lemma ZigZagFits(size: nat, n: int, there: Datum, rest: Bytes)
    requires IntegerSize(size) && -0x8000_0000_0000_0000 <= n < 0x8000_0000_0000_0000
    ensures
      var e := Varint(if n < 0 then -2 * n - 1 else 2 * n);
      DecodeDatum(ZigZag(size), there, e + rest) == if WithinSigned(n, Range(size)) then Some((Int(n), |e|)) else None
  {
    hide ReadVarint, Varint, NarrowSigned, UnZigZag, WithinSigned;
    VarintReads(ZigZagged(n), rest);
    ZigZagReads(n);
    NarrowIs(size, n);
  }

  lemma SignedFits(size: nat, n: int, there: Datum, rest: Bytes)
    requires IntegerSize(size) && -0x8000_0000_0000_0000 <= n < 0x8000_0000_0000_0000
    ensures
      var e := Varint(if n < 0 then n + TWO_64 else n);
      var m := if size == 8 then n else AsSigned(n % TWO_32, TWO_32);
      DecodeDatum(Signed(size), there, e + rest) == if WithinSigned(m, Range(size)) then Some((Int(m), |e|)) else None
  {
    hide ReadVarint, Varint, NarrowSigned, FromSigned;
    var v := if n < 0 then n + TWO_64 else n;
    VarintReads(v, rest);
    LowWord(size, n);
  }

  lemma LowWord(size: nat, n: int)
    requires IntegerSize(size) && -0x8000_0000_0000_0000 <= n < 0x8000_0000_0000_0000
    ensures
      var v := if n < 0 then n + TWO_64 else n;
      var m := if size == 8 then n else AsSigned(n % TWO_32, TWO_32);
      FromSigned(v, size) == if WithinSigned(m, Range(size)) then Some(Int(m)) else None
  {
    hide NarrowSigned;
    var v := if n < 0 then n + TWO_64 else n;
    assert v % TWO_32 == n % TWO_32;
    NarrowIs(size, AsSigned(n % TWO_32, TWO_32));
  }

  // ---------- numbers of 32 bits ----------

  /** From group `n` on, every group of seven bits is all zeros or all ones, and the last bit of the 64 is one. */
  predicate SignGroups(q: nat, n: nat)
    requires n <= 9
    decreases 9 - n
  {
    if n == 9 then q == 1 else (q % 128 == 0 || q % 128 == 127) && SignGroups(q / 128, n + 1)
  }

  /** What the decoder of 32-bit numbers makes of a number of up to 64 bits that takes `len` bytes. */
  function Low32(v: nat, len: nat): Option<(nat, nat)> {
    if v < TWO_32 then Some((v, len))
    else if v % TWO_32 >= 0x8000_0000 && SignGroups(v / 0x8_0000_0000, 5) then Some((v % TWO_32, len))
    else None
  }

  /** Numbers below 2^64 from group `n` on. */
  function GroupBound(n: nat): nat
    decreases 9 - n
  {
    if n >= 9 then 2 else 128 * GroupBound(n + 1)
  }

  lemma {:induction false} HighGroups(b: Bytes, n: nat, low: nat, q: nat, rest: Bytes)
    requires 5 <= n <= 9 && n <= |b| && b[n..] == Varint(q) + rest && 0 < q < GroupBound(n)
    ensures Varint32Rest(b, n, low) ==
            if low >= 0x8000_0000 && SignGroups(q, n) then Some((low, n + |Varint(q)|)) else None
    decreases 9 - n
  {
    hide Varint;
    ByteIs(b, n, q, rest);
    if q >= 128 {
      HighGroups(b, n + 1, low, q / 128, rest);
    }
  }

  lemma {:induction false} NoGroups(n: nat)
    requires n <= 9
    ensures !SignGroups(0, n)
    decreases 9 - n
  {
    if n < 9 {
      NoGroups(n + 1);
    }
  }

  /** The fifth byte: only four of its bits are within the 32. */
  lemma FifthByte(b: Bytes, low: nat, q: nat, rest: Bytes)
    requires 4 <= |b| && b[4..] == Varint(q) + rest && 0 < q < GroupBound(4) && low < 0x1000_0000
    ensures Varint32Rest(b, 4, low) == Low32(low + q * 0x1000_0000, 4 + |Varint(q)|)
  {
    hide Varint;
    ByteIs(b, 4, q, rest);
    var v := low + q * 0x1000_0000;
    FifthWord(low, q);
    assert Power128(4) == 0x1000_0000 by {
      assert Power128(2) == 0x4000;
    }
    if q >= 128 {
      HighGroups(b, 5, v % TWO_32, q / 128, rest);
    } else {
      NoGroups(5);
    }
  }

  lemma FifthWord(low: nat, q: nat)
    requires low < 0x1000_0000
    ensures
      var v := low + q * 0x1000_0000;
      && low + q % 128 * 0x1000_0000 % TWO_32 == v % TWO_32
      && v / 0x8_0000_0000 == q / 128
      && (v < TWO_32 <==> q < 16)
  {
    LowBits(low, q);
    HighBits(low, q);
  }

  lemma LowBits(low: nat, q: nat)
    requires low < 0x1000_0000
    ensures low + q % 128 * 0x1000_0000 % TWO_32 == (low + q * 0x1000_0000) % TWO_32
  {
    var h, l := q / 128, q % 128;
    assert q == 128 * h + l;
    var g, k := l / 16, l % 16;
    assert l == 16 * g + k;
    var rest := k * 0x1000_0000;
    assert l * 0x1000_0000 == g * TWO_32 + rest && rest < TWO_32;
    Remains(g, rest);
    assert low + q * 0x1000_0000 == (8 * h + g) * TWO_32 + (low + rest);
    Remains(8 * h + g, low + rest);
  }

  lemma Remains(high: nat, low: nat)
    requires low < TWO_32
    ensures (high * TWO_32 + low) % TWO_32 == low
  {
  }

  lemma HighBits(low: nat, q: nat)
    requires low < 0x1000_0000
    ensures (low + q * 0x1000_0000) / 0x8_0000_0000 == q / 128
    ensures low + q * 0x1000_0000 < TWO_32 <==> q < 16
  {
    var h, l := q / 128, q % 128;
    assert q == 128 * h + l;
    assert low + q * 0x1000_0000 == h * 0x8_0000_0000 + (low + l * 0x1000_0000);
  }

  /** The number of which `low` is below group `n` and `q` from there on, and the part of it in that group. */
  function Total(low: nat, q: nat, n: nat): nat {
    low + q * Power128(n)
  }

  function Digit(q: nat, n: nat): nat {
    q % 128 * Power128(n)
  }

  lemma {:induction false} LowGroups(b: Bytes, n: nat, low: nat, q: nat, rest: Bytes)
    requires 1 <= n <= 4 && n <= |b| && b[n..] == Varint(q) + rest && 0 < q < GroupBound(n) && low < Power128(n)
    ensures Varint32Rest(b, n, low) == Low32(Total(low, q, n), n + |Varint(q)|)
    decreases 4 - n
  {
    hide Low32, Varint, Varint32Rest, GroupBound, Power128, Total, Digit;
    if n == 4 {
      FromFour(low, q);
      FifthByte(b, low, q, rest);
    } else {
      GroupValue(n, low, q);
      NextByte(b, n, low, q, rest);
      if q >= 128 {
        LowGroups(b, n + 1, low + Digit(q, n), q / 128, rest);
      } else {
        SmallIsTaken(Total(low, q, n), n + 1);
      }
    }
  }

  lemma SmallIsTaken(v: nat, len: nat)
    requires v < TWO_32
    ensures Low32(v, len) == Some((v, len))
  {
  }

  lemma FromFour(low: nat, q: nat)
    ensures Power128(4) == 0x1000_0000 && Total(low, q, 4) == low + q * 0x1000_0000
  {
    FourPowers();
  }

  lemma FourPowers()
    ensures Power128(1) == 0x80 && Power128(2) == 0x4000 && Power128(3) == 0x20_0000 && Power128(4) == 0x1000_0000
  {
  }

  lemma NextByte(b: Bytes, n: nat, low: nat, q: nat, rest: Bytes)
    requires 1 <= n < 4 && n <= |b| && b[n..] == Varint(q) + rest && 0 < q < GroupBound(n)
    ensures
      var sum := low + Digit(q, n) % TWO_32;
      if q < 128 then Varint32Rest(b, n, low) == Some((sum, n + 1)) && |Varint(q)| == 1
      else && b[n + 1..] == Varint(q / 128) + rest && |Varint(q)| == 1 + |Varint(q / 128)|
           && q / 128 < GroupBound(n + 1)
           && Varint32Rest(b, n, low) == Varint32Rest(b, n + 1, sum)
  {
    hide Power128, Varint;
    ByteIs(b, n, q, rest);
  }

  lemma ByteIs(b: Bytes, n: nat, q: nat, rest: Bytes)
    requires n <= |b| && b[n..] == Varint(q) + rest
    ensures n < |b| && b[n] % 128 == q % 128 && (b[n] >= 128 <==> q >= 128)
    ensures if q < 128 then |Varint(q)| == 1
            else b[n + 1..] == Varint(q / 128) + rest && |Varint(q)| == 1 + |Varint(q / 128)|
  {
    assert b[n] == b[n..][0];
    if q >= 128 {
      assert b[n + 1..] == b[n..][1..];
      assert (Varint(q) + rest)[1..] == Varint(q / 128) + rest;
    }
  }

  lemma GroupValue(n: nat, low: nat, q: nat)
    requires 1 <= n < 4 && low < Power128(n)
    ensures low + Digit(q, n) < Power128(n + 1) && Digit(q, n) % TWO_32 == Digit(q, n)
    ensures Total(low, q, n) == Total(low + Digit(q, n), q / 128, n + 1)
    ensures q < 128 ==> Total(low, q, n) == low + Digit(q, n) < TWO_32
  {
    FourPowers();
    assert q == 128 * (q / 128) + q % 128;
    if n == 1 {
      assert Power128(n) == 0x80;
    } else if n == 2 {
      assert Power128(n) == 0x4000;
    } else {
      assert Power128(n) == 0x20_0000;
    }
  }

  /** Exactly which numbers the decoder of 32-bit numbers takes, and as what: those of 32 bits, and of the others those that
      look like the sign extension of a negative one. */
  lemma Varint32Takes(v: nat, rest: Bytes)
    requires v < TWO_64
    ensures ReadVarint32(Varint(v) + rest) == Low32(v, |Varint(v)|)
  {
    hide Varint32Rest, SignGroups, GroupBound;
    if v >= 128 {
      var b := Varint(v) + rest;
      assert b[1..] == Varint(v / 128) + rest;
      FourPowers();
      Bounds();
      LowGroups(b, 1, v % 128, v / 128, rest);
    }
  }

  lemma Bounds()
    ensures TWO_64 == 128 * GroupBound(1)
  {
    assert GroupBound(9) == 2 && GroupBound(8) == 0x100 && GroupBound(7) == 0x8000 && GroupBound(6) == 0x40_0000;
    assert GroupBound(5) == 0x2000_0000 && GroupBound(4) == 0x10_0000_0000 && GroupBound(3) == 0x800_0000_0000;
    assert GroupBound(2) == 0x4_0000_0000_0000;
  }

  /** Strings fit with their NUL, bytes with their length field, bytes of a fixed size exactly or not at all. */
  lemma StringsFit(size: nat, s: Bytes, there: Datum, rest: Bytes)
    requires |s| < TWO_32
    ensures
      var n := |Prefixed(s)|;
      && DecodeDatum(CString(size), there, Prefixed(s) + rest) ==
         (if |s| < size then Some((Data(s + [0]), n)) else None)
      && DecodeDatum(ByteArray(size), there, Prefixed(s) + rest) ==
         (if |s| + 4 <= size then Some((Data(s), n)) else None)
      && DecodeDatum(FixedBytes(size), there, Prefixed(s) + rest) ==
         if |s| == 0 then Some((Data(Zeros(size)), n)) else if |s| == size then Some((Data(s), n)) else None
  {
    hide Prefixed, ReadPrefixed;
    PrefixedReads(s, rest);
  }

  /** An array is full when there is no room for what is left of the bytes. */
  lemma {:induction false} ArraysFit(k: Kind, items: seq<Datum>, i: nat, there: seq<Datum>, count: nat)
    requires Packable(k) && i <= |items| && count <= |there| && forall j :: i <= j < |items| ==> ValidDatum(k, items[j])
    ensures EncodePacked(k, items, i, |items|).Some?
    ensures DecodePacked(k, EncodePacked(k, items, i, |items|).value, there, count).Some? <==>
            count + |items| - i <= |there|
    decreases |items| - i
  {
    hide EncodeDatum, DecodeDatum, ValidDatum, Copied;
    PackedEncodes(k, items, i, |items|);
    if i < |items| {
      var rest := EncodePacked(k, items, i + 1, |items|).value;
      var e := EncodeDatum(k, items[i]).value;
      var room := if count < |there| then there[count] else items[i];
      ScalarRoundTrip(k, items[i], room, rest);
      assert (e + rest)[|e|..] == rest;
      var next := if count < |there| then there[count := DecodeDatum(k, room, e + rest).value.0] else there;
      if count < |there| {
        ArraysFit(k, items, i + 1, next, count + 1);
      }
    }
  }

  /** Nor is anything written that the reader would refuse: arrays with a count above their size, bytes above theirs, and
      integers of no size that there is. */
  lemma WriterRefuses(f: Field, items: seq<Datum>, count: nat, size: nat, b: Bytes, n: int)
    requires f.rule.Repeated?
    ensures count > f.rule.arraySize ==> EncodeArray(f, items, count) == None
    ensures EncodeDatum(ByteArray(size), Data(b)).Some? <==> |b| + 4 <= size
    ensures !(size in {1, 2, 4, 8}) ==>
      EncodeDatum(Signed(size), Int(n)) == EncodeDatum(Unsigned(size), Int(n)) == EncodeDatum(ZigZag(size), Int(n)) == None
  {
    hide Prefixed, Varint, EncodePacked, EncodeUnpacked;
  }

  /** A zero ends the message. */
  lemma ZeroEnds(fields: seq<Field>, rest: Bytes, p: Progress)
    requires Shape(fields, p)
    ensures Loop(fields, [0] + rest, p) == Some(p)
  {
  }

  /** Of a field that is not in the descriptor the wire type has to be one of the four. */
  lemma UnknownTypeFails(fields: seq<Field>, tag: nat, wire: nat, rest: Bytes, p: Progress)
    requires Shape(fields, p) && 0 < tag < 0x2000_0000 && Find(fields, tag, 0).None?
    requires wire == 3 || wire == 4 || wire == 6 || wire == 7
    ensures Loop(fields, TagBytes(tag, wire) + rest, p) == None
  {
    hide Find, TagBytes;
    TagReads(tag, wire, rest);
  }

  lemma TagReads(tag: nat, wire: nat, rest: Bytes)
    requires 0 < tag < 0x2000_0000 && wire < 8
    ensures
      var r := ReadVarint32(TagBytes(tag, wire) + rest);
      && r.Some? && r.value.0 / 8 == tag && r.value.0 % 8 == wire && r.value.0 != 0
      && (TagBytes(tag, wire) + rest)[r.value.1..] == rest
      && TagBytes(tag, wire) + rest != []
  {
    hide ReadVarint32, Varint;
    var v := tag * 8 + wire;
    assert v / 8 == tag && v % 8 == wire;
    Varint32RoundTrip(v, rest);
  }

  // ---------- messages of strangers ----------

  lemma {:induction false} StrangersPass(known: seq<Field>, fields: seq<Field>, m: seq<Slot>, i: nat, p: Progress)
    requires Shape(known, p) && WellFormed(fields) && ValidMessage(fields, m) && i <= |fields|
    requires forall j :: 0 <= j < |fields| ==> Find(known, fields[j].tag, 0).None?
    requires EncodeFields(fields, m, i).Some? && |EncodeFields(fields, m, i).value| < TWO_32
    ensures Loop(known, EncodeFields(fields, m, i).value, p) == Some(p)
    decreases |fields| - i
  {
    hide EncodeField, EncodeFields, Loop, Shape, ValidMessage, WellFormed, Place, Find;
    SameCount(fields, m);
    FirstWritten(fields, m, i);
    if i == |fields| {
      NothingLeft(known, p);
    } else {
      var rest := EncodeFields(fields, m, i + 1).value;
      FieldValid(fields, m, i);
      UnknownField(known, fields[i], m[Place(fields, i)], rest, p);
      StrangersPass(known, fields, m, i + 1, p);
    }
  }

  /** A message none of whose fields the reader knows is accepted exactly if the reader requires no field, and leaves
      everything at its default. */
  lemma StrangersRead(known: seq<Field>, fields: seq<Field>, m: seq<Slot>)
    requires WellFormed(fields) && ValidMessage(fields, m)
    requires forall j :: 0 <= j < |fields| ==> Find(known, fields[j].tag, 0).None?
    requires Encode(fields, m).Some? ==> |Encode(fields, m).value| < TWO_32
    ensures Encode(fields, m).Some?
    ensures Decode(known, Encode(fields, m).value) ==
            if exists i :: 0 <= i < |known| && known[i].rule.Required? then None
            else Some(Defaults(known, |known|))
  {
    hide EncodeFields, Loop, ValidMessage, WellFormed, Find;
    FieldsEncode(fields, m, 0);
    var p := Progress(Defaults(known, |known|), None, 0, {});
    StrangersPass(known, fields, m, 0, p);
    SomeRequired(known, |known|);
    if RequiredBefore(known, |known|) > 0 {
      assert 0 !in p.seen;
    }
  }

  lemma {:induction false} SomeRequired(fields: seq<Field>, n: nat)
    requires n <= |fields|
    ensures RequiredBefore(fields, n) > 0 <==> exists i :: 0 <= i < n && fields[i].rule.Required?
  {
    if n > 0 {
      SomeRequired(fields, n - 1);
      assert fields[n - 1].rule.Required? ==> RequiredBefore(fields, n) > 0;
    }
  }
}
