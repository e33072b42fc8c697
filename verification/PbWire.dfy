/** The wire format as other programs see it: the bytes of keys and values, and what a reader makes of fields that its
    descriptor does not have (nanopb/pb_encode.c, lines 144-541 and 599-706; nanopb/pb_decode.c, lines 187-385 and
    925-1073). */
module PbWire {
  import opened Coding
  import opened DbFormat
  import opened PbFields
  import opened PbEncode
  import opened PbDecode
  import opened PbRoundTrip

  // ---------- keys ----------

  /** The numbers of the encoding: varint 0, 64-bit 1, length-delimited 2, 32-bit 5. */
  lemma KeyByte(f: Field, d: Datum)
    requires f.tag < 16 && EncodeTagged(f, d).Some?
    ensures
      var e := EncodeTagged(f, d).value;
      && |e| > 1
      && (f.kind.Boolean? || f.kind.Signed? || f.kind.Unsigned? || f.kind.ZigZag? ==> e[0] == 8 * f.tag)
      && (f.kind.Fixed64? ==> e[0] == 8 * f.tag + 1)
      && (f.kind.ByteArray? || f.kind.CString? || f.kind.Submessage? || f.kind.FixedBytes? ==> e[0] == 8 * f.tag + 2)
      && (f.kind.Fixed32? ==> e[0] == 8 * f.tag + 5)
  {
    hide EncodeFields;
  }

  lemma PackedKeyByte(f: Field, items: seq<Datum>, count: nat)
    requires f.tag < 16 && f.rule.Repeated? && Packable(f.kind) && count > 0
    requires EncodeArray(f, items, count).Some?
    ensures |EncodeArray(f, items, count).value| > 1 && EncodeArray(f, items, count).value[0] == 8 * f.tag + 2
  {
    hide EncodePacked;
  }

  // ---------- values ----------

  /** The examples of the Protocol Buffers encoding guide, with any short string for its "testing": 150 as an `int32`, the
      string, and a message with the former inside. */
  lemma GuideExamples(text: Bytes)
    requires |text| < 128 && 0 !in text
    ensures
      var number := Field(1, Required, Signed(4), None);
      && EncodeTagged(number, Int(150)) == Some([0x08, 0x96, 0x01])
      && EncodeTagged(Field(2, Required, CString(|text| + 1), None), Data(text + [0])) == Some([0x12, |text|] + text)
      && EncodeTagged(Field(3, Required, Submessage([number]), None), Struct([Plain(Int(150))])) ==
         Some([0x1a, 0x03, 0x08, 0x96, 0x01])
  {
    hide EncodeTagged;
    NumberExample();
    TextExample(text);
    InsideExample();
  }

  lemma NumberExample()
    ensures EncodeDatum(Signed(4), Int(150)) == Some([0x96, 0x01])
    ensures EncodeTagged(Field(1, Required, Signed(4), None), Int(150)) == Some([0x08, 0x96, 0x01])
  {
    assert Varint(150) == [0x96] + Varint(1) && Varint(1) == [0x01];
    assert [0x96] + [0x01] == [0x96, 0x01];
    assert [0x08] + [0x96, 0x01] == [0x08, 0x96, 0x01];
  }

  lemma ShortPrefixed(b: Bytes)
    requires |b| < 128
    ensures Prefixed(b) == [|b|] + b
  {
  }

  lemma TextExample(text: Bytes)
    requires |text| < 128 && 0 !in text
    ensures EncodeTagged(Field(2, Required, CString(|text| + 1), None), Data(text + [0])) == Some([0x12, |text|] + text)
  {
    hide Prefixed, StrLen;
    StrLenReads(text);
    ShortPrefixed(text);
    assert (text + [0])[..|text|] == text;
    assert [0x12] + ([|text|] + text) == [0x12, |text|] + text;
  }

  lemma InsideExample()
    ensures
      var number := Field(1, Required, Signed(4), None);
      EncodeTagged(Field(3, Required, Submessage([number]), None), Struct([Plain(Int(150))])) ==
      Some([0x1a, 0x03, 0x08, 0x96, 0x01])
  {
    hide Prefixed;
    var number := Field(1, Required, Signed(4), None);
    var inside := [0x08, 0x96, 0x01];
    NumberExample();
    OnlyField(number, Int(150), inside);
    ShortPrefixed(inside);
    assert [0x1a] + ([3] + inside) == [0x1a, 0x03, 0x08, 0x96, 0x01];
  }

  lemma OnlyField(f: Field, d: Datum, e: Bytes)
    requires f.rule.Required? && EncodeTagged(f, d) == Some(e)
    ensures EncodeFields([f], [Plain(d)], 0) == Some(e)
  {
    hide EncodeTagged;
    assert Members([f], 1) == Members([f], 0) + 1 && Place([f], 0) == 0;
    assert EncodeField(f, Plain(d)) == Some(e) && EncodeFields([f], [Plain(d)], 1) == Some([]);
    assert e + [] == e;
  }

  /** Signed numbers: the plain kinds as 64-bit two's complement, so that a negative one takes ten bytes; the zigzag kinds
      as 0, -1, 1, -2, ... in the order of their size. */
  lemma SignedBytes(n: int)
    requires -0x8000_0000_0000_0000 <= n < 0x8000_0000_0000_0000
    ensures
      var plain, zigzag := EncodeDatum(Signed(8), Int(n)), EncodeDatum(ZigZag(8), Int(n));
      && plain == Some(Varint(if n < 0 then n + TWO_64 else n))
      && zigzag == Some(Varint(if n < 0 then -2 * n - 1 else 2 * n))
      && (n < 0 ==> |plain.value| == 10)
  {
    hide Varint;
    Wrapped(n);
    Wrapped(ZigZagged(n));
    if n < 0 {
      TenBytes(n + TWO_64);
    }
  }

  lemma Wrapped(n: int)
    requires -TWO_64 <= n < TWO_64
    ensures n % TWO_64 == if n < 0 then n + TWO_64 else n
  {
  }

  lemma TenBytes(v: nat)
    requires 0x8000_0000_0000_0000 <= v < TWO_64
    ensures |Varint(v)| == 10
  {
    hide Varint;
    Powers();
    LongVarint(v, 10);
    VarintLength(v, 10);
  }

  lemma {:induction false} LongVarint(v: nat, n: nat)
    requires n > 0 && v >= Power128(n - 1)
    ensures |Varint(v)| >= n
    decreases n
  {
    if n > 1 {
      assert Power128(n - 1) == 128 * Power128(n - 2) && Power128(n - 2) > 0;
      LongVarint(v / 128, n - 1);
    }
  }

  /** A value is left out as default when nobody could tell it from zeroed memory; bytes of a fixed size are only when
      there are none. */
  lemma ZeroIsMemset(k: Kind, d: Datum)
    requires !k.Submessage? && ValidDatum(k, d)
    ensures IsZero(k, d) <==> if k.FixedBytes? then k.size == 0 else Restored(k, d, Zero(k))
  {
    if k.CString? {
      FirstIsNul(d.bytes);
      ZerosNul(k.size);
    }
  }

  lemma FirstIsNul(b: Bytes)
    ensures b != [] ==> (b[0] == 0 <==> b[..StrLen(b)] == [])
  {
  }

  lemma ZerosNul(n: nat)
    ensures n > 0 ==> Zeros(n)[..StrLen(Zeros(n))] == [] && 0 in Zeros(n)
  {
    if n > 0 {
      ZerosFirst(n);
    }
  }

  lemma {:induction false} ZerosFirst(n: nat)
    requires n > 0
    ensures Zeros(n)[0] == 0
  {
    if n > 1 {
      ZerosFirst(n - 1);
    }
  }

  // ---------- skipping what was written ----------

  lemma {:induction false} SkipsVarint(v: nat, rest: Bytes)
    ensures SkipVarint(Varint(v) + rest) == Some(|Varint(v)|)
  {
    if v >= 128 {
      SkipsVarint(v / 128, rest);
      assert (Varint(v) + rest)[1..] == Varint(v / 128) + rest;
    }
  }

  lemma SkipsPrefixed(b: Bytes, rest: Bytes)
    requires |b| < TWO_32
    ensures SkipField(WT_STRING, Prefixed(b) + rest) == Some(|Prefixed(b)|)
  {
    hide ReadPrefixed, Prefixed;
    PrefixedReads(b, rest);
  }

  /** Skipping fits writing: by the wire type alone, a reader gets past every value that can be written. */
  lemma SkipWritten(k: Kind, d: Datum, rest: Bytes)
    requires ValidDatum(k, d) && EncodeDatum(k, d).Some? && |EncodeDatum(k, d).value| < TWO_32
    ensures SkipField(WireType(k), EncodeDatum(k, d).value + rest) == Some(|EncodeDatum(k, d).value|)
  {
    hide SkipVarint, ReadPrefixed, Varint, EncodeFields, ValidMessage, StrLen;
    match k
    case Boolean => SkipsVarint(if d.n != 0 then 1 else 0, rest);
    case Signed(_) => SkipsVarint(d.n % TWO_64, rest);
    case Unsigned(_) => SkipsVarint(d.n % TWO_64, rest);
    case ZigZag(_) => SkipsVarint(ZigZagged(d.n) % TWO_64, rest);
    case Fixed32 =>
    case Fixed64 =>
    case ByteArray(_) => SkipsPrefixed(d.bytes, rest);
    case CString(_) => SkipsPrefixed(d.bytes[..StrLen(d.bytes)], rest);
    case Submessage(fields) => SkipsPrefixed(EncodeFields(fields, d.slots, 0).value, rest);
    case FixedBytes(_) => SkipsPrefixed(d.bytes, rest);
  }

  // ---------- unknown fields ----------

  lemma UnknownOnce(known: seq<Field>, tag: nat, wire: nat, x: Bytes, rest: Bytes, p: Progress)
    requires Shape(known, p) && 0 < tag < 0x2000_0000 && wire < 8 && Find(known, tag, 0).None?
    requires SkipField(wire, x + rest) == Some(|x|)
    ensures Loop(known, TagBytes(tag, wire) + x + rest, p) == Loop(known, rest, p)
  {
    hide Loop, SkipField, Find;
    var v := tag * 8 + wire;
    assert v / 8 == tag && v % 8 == wire;
    LoopOnce(known, v, x, rest, p, p);
  }

  lemma UnknownValue(known: seq<Field>, f: Field, d: Datum, rest: Bytes, p: Progress)
    requires Shape(known, p) && WellFormedField(f) && ValidDatum(f.kind, d) && Find(known, f.tag, 0).None?
    requires EncodeTagged(f, d).Some? && |EncodeTagged(f, d).value| < TWO_32
    ensures Loop(known, EncodeTagged(f, d).value + rest, p) == Loop(known, rest, p)
  {
    hide Loop, SkipField, Find, EncodeDatum, ValidDatum, TagBytes;
    var e := EncodeDatum(f.kind, d).value;
    SkipWritten(f.kind, d, rest);
    UnknownOnce(known, f.tag, WireType(f.kind), e, rest, p);
  }

  lemma {:induction false} UnknownElements(known: seq<Field>, f: Field, items: seq<Datum>, i: nat, n: nat, rest: Bytes,
                                           p: Progress)
    requires Shape(known, p) && WellFormedField(f) && Find(known, f.tag, 0).None?
    requires i <= n <= |items| && forall j :: i <= j < n ==> ValidDatum(f.kind, items[j])
    requires EncodeUnpacked(f, items, i, n).Some? && |EncodeUnpacked(f, items, i, n).value| < TWO_32
    ensures Loop(known, EncodeUnpacked(f, items, i, n).value + rest, p) == Loop(known, rest, p)
    decreases n - i
  {
    hide Loop, Find, EncodeTagged, ValidDatum, WellFormedField;
    if i == n {
      assert [] + rest == rest;
    } else {
      var x, e := EncodeTagged(f, items[i]).value, EncodeUnpacked(f, items, i + 1, n).value;
      assert (x + e) + rest == x + (e + rest);
      UnknownValue(known, f, items[i], e + rest, p);
      UnknownElements(known, f, items, i + 1, n, rest, p);
    }
  }

  /** Whatever a field of another descriptor has written changes nothing. */
  lemma UnknownField(known: seq<Field>, f: Field, s: Slot, rest: Bytes, p: Progress)
    requires Shape(known, p) && WellFormedField(f) && ValidSlot(f, s) && Find(known, f.tag, 0).None?
    requires EncodeField(f, s).Some? && |EncodeField(f, s).value| < TWO_32
    ensures Loop(known, EncodeField(f, s).value + rest, p) == Loop(known, rest, p)
  {
    hide Loop, Find, EncodeTagged, ValidDatum, WellFormedField, EncodeUnpacked, EncodePacked, IsDefault;
    assert [] + rest == rest;
    match f.rule
    case Repeated(_, _) =>
      var n := Elements(f, s);
      if n > 0 {
        if Packable(f.kind) {
          UnknownPacked(known, f, EncodePacked(f.kind, s.items, 0, n).value, rest, p);
        } else {
          UnknownElements(known, f, s.items, 0, n, rest, p);
        }
      }
    case Required => UnknownValue(known, f, s.v, rest, p);
    case Optional(hasFlag) =>
      if if hasFlag then s.has else !IsDefault(f, s) {
        UnknownValue(known, f, s.v, rest, p);
      }
    case Oneof(_) =>
      if s.which == f.tag {
        UnknownValue(known, f, s.v, rest, p);
      }
  }

  lemma UnknownPacked(known: seq<Field>, f: Field, e: Bytes, rest: Bytes, p: Progress)
    requires Shape(known, p) && WellFormedField(f) && Find(known, f.tag, 0).None? && |e| < TWO_32
    ensures Loop(known, TagBytes(f.tag, WT_STRING) + Prefixed(e) + rest, p) == Loop(known, rest, p)
  {
    hide Loop, Find, Prefixed, TagBytes, SkipField;
    SkipsPrefixed(e, rest);
    UnknownOnce(known, f.tag, WT_STRING, Prefixed(e), rest, p);
  }

  // ---------- a descriptor without some of the fields ----------

  predicate SameField(a: Field, b: Field) {
    && a.tag == b.tag && a.kind == b.kind && a.default == b.default
    && (a.rule == b.rule || (a.rule.Oneof? && b.rule.Oneof?))
  }

  /** The member of field `i`; a union that holds a field that is gone holds nothing. */
  function SlotLeft(fields: seq<Field>, gone: set<nat>, m: seq<Slot>, i: nat): Slot
    requires i < |fields| && |m| == Members(fields, |fields|)
  {
    var s := m[Place(fields, i)];
    if s.Union? && s.which in gone then Union(0, Int(0)) else s
  }

  /** A field that stays comes earlier in the same union. */
  ghost predicate SharesKept(fields: seq<Field>, gone: set<nat>, i: nat)
    requires i < |fields|
  {
    exists j :: 0 <= j < i && Place(fields, j) == Place(fields, i) && fields[j].tag !in gone
  }

  ghost function Rejoined(fields: seq<Field>, gone: set<nat>, i: nat): Field
    requires i < |fields|
  {
    var f := fields[i];
    if f.rule.Oneof? then f.(rule := Oneof(SharesKept(fields, gone, i))) else f
  }

  /** Of the first `n` fields, those that are not gone: their indices, their descriptors and their members. */
  function At(fields: seq<Field>, gone: set<nat>, n: nat): seq<nat>
    requires n <= |fields|
  {
    if n == 0 then [] else At(fields, gone, n - 1) + if fields[n - 1].tag in gone then [] else [n - 1]
  }

  ghost function Without(fields: seq<Field>, gone: set<nat>, n: nat): seq<Field>
    requires n <= |fields|
  {
    if n == 0 then []
    else Without(fields, gone, n - 1) + if fields[n - 1].tag in gone then [] else [Rejoined(fields, gone, n - 1)]
  }

  ghost function SlotsLeft(fields: seq<Field>, gone: set<nat>, m: seq<Slot>, n: nat): seq<Slot>
    requires n <= |fields| && |m| == Members(fields, |fields|)
  {
    if n == 0 then []
    else
      SlotsLeft(fields, gone, m, n - 1) +
      if fields[n - 1].tag in gone || SharesKept(fields, gone, n - 1) then []
      else [SlotLeft(fields, gone, m, n - 1)]
  }

  /** `known` has just the fields that are not gone, in their order and their unions, and `left` their members. */
  ghost predicate Narrows(fields: seq<Field>, m: seq<Slot>, gone: set<nat>, n: nat, at: seq<nat>, known: seq<Field>,
                          left: seq<Slot>)
    requires n <= |fields| && |m| == Members(fields, |fields|)
  {
    && |at| == |known|
    && (forall k :: 0 <= k < |at| ==> at[k] < n)
    && (forall k, l :: 0 <= k < l < |at| ==> at[k] < at[l])
    && (forall i :: 0 <= i < n ==> (i in at <==> fields[i].tag !in gone))
    && |left| == Members(known, |known|)
    && (forall k :: 0 <= k < |at| ==> Stays(fields, m, gone, at[k], known, left, k))
    && (forall k, l :: 0 <= k < |at| && 0 <= l < |at| ==>
          (Place(known, k) == Place(known, l) <==> Place(fields, at[k]) == Place(fields, at[l])))
  }

  predicate Stays(fields: seq<Field>, m: seq<Slot>, gone: set<nat>, i: nat, known: seq<Field>, left: seq<Slot>, k: nat)
    requires i < |fields| && |m| == Members(fields, |fields|) && k < |known|
  {
    && SameField(fields[i], known[k])
    && Place(known, k) < |left|
    && left[Place(known, k)] == SlotLeft(fields, gone, m, i)
  }

  lemma {:induction false} MembersPrefix(a: seq<Field>, b: seq<Field>, n: nat)
    requires n <= |a|
    ensures Members(a + b, n) == Members(a, n)
  {
    if n > 0 {
      MembersPrefix(a, b, n - 1);
    }
  }

  lemma PlacePrefix(a: seq<Field>, b: seq<Field>, i: nat)
    requires i < |a|
    ensures Place(a + b, i) == Place(a, i)
  {
    MembersPrefix(a, b, i + 1);
  }

  /** What lies between two fields of a union is in the union. */
  lemma BetweenShares(fields: seq<Field>, i: nat, j: nat, k: nat)
    requires i <= j <= k < |fields| && Place(fields, i) == Place(fields, k)
    ensures Place(fields, j) == Place(fields, i)
  {
    MembersGrow(fields, i + 1, j + 1);
    MembersGrow(fields, j + 1, k + 1);
  }

  lemma {:induction false} WithoutNarrows(fields: seq<Field>, m: seq<Slot>, gone: set<nat>, n: nat)
    requires n <= |fields| && |m| == Members(fields, |fields|)
    ensures
      Narrows(fields, m, gone, n, At(fields, gone, n), Without(fields, gone, n), SlotsLeft(fields, gone, m, n))
    decreases n
  {
    hide Narrows, Place;
    if n == 0 {
      NothingNarrows(fields, m, gone);
    } else {
      WithoutNarrows(fields, m, gone, n - 1);
      var at, known, left := At(fields, gone, n - 1), Without(fields, gone, n - 1), SlotsLeft(fields, gone, m, n - 1);
      if fields[n - 1].tag in gone {
        assert at + [] == at && known + [] == known && left + [] == left;
        NarrowsGone(fields, m, gone, n - 1, at, known, left);
      } else if SharesKept(fields, gone, n - 1) {
        assert left + [] == left;
        NarrowsShared(fields, m, gone, n - 1, at, known, left);
      } else {
        NarrowsNew(fields, m, gone, n - 1, at, known, left);
      }
    }
  }

  lemma NothingNarrows(fields: seq<Field>, m: seq<Slot>, gone: set<nat>)
    requires |m| == Members(fields, |fields|)
    ensures Narrows(fields, m, gone, 0, [], [], [])
  {
  }

  lemma NarrowsGone(fields: seq<Field>, m: seq<Slot>, gone: set<nat>, n: nat, at: seq<nat>, known: seq<Field>,
                    left: seq<Slot>)
    requires n < |fields| && |m| == Members(fields, |fields|) && fields[n].tag in gone
    requires Narrows(fields, m, gone, n, at, known, left)
    ensures Narrows(fields, m, gone, n + 1, at, known, left)
  {
    hide Stays, Place, Members;
  }

  lemma NarrowsShared(fields: seq<Field>, m: seq<Slot>, gone: set<nat>, n: nat, at: seq<nat>, known: seq<Field>,
                      left: seq<Slot>)
    requires n < |fields| && |m| == Members(fields, |fields|) && fields[n].tag !in gone
    requires Narrows(fields, m, gone, n, at, known, left) && SharesKept(fields, gone, n)
    ensures Narrows(fields, m, gone, n + 1, at + [n], known + [Rejoined(fields, gone, n)], left)
  {
    hide Place, Members, SharesKept, Narrows;
    var l, g := |at| - 1, Rejoined(fields, gone, n);
    LastShares(fields, m, gone, n, at, known, left);
    NarrowsLast(fields, m, gone, n, at, known, left);
    Rejoins(fields, m, gone, n, at, known, left);
    KeepsOld(fields, m, gone, n, at, known, left, g, left);
    NarrowsBy(fields, m, gone, n, at, known, left, g, left);
  }

  /** The last field that stays is in the same union. */
  lemma LastShares(fields: seq<Field>, m: seq<Slot>, gone: set<nat>, n: nat, at: seq<nat>, known: seq<Field>,
                   left: seq<Slot>)
    requires n < |fields| && |m| == Members(fields, |fields|)
    requires Narrows(fields, m, gone, n, at, known, left) && SharesKept(fields, gone, n)
    ensures |at| > 0 && at[|at| - 1] < n && Place(fields, at[|at| - 1]) == Place(fields, n)
    ensures fields[at[|at| - 1]].rule.Oneof? && fields[n].rule.Oneof?
  {
    hide Place, Members, Stays;
    var j :| 0 <= j < n && Place(fields, j) == Place(fields, n) && fields[j].tag !in gone;
    assert j in at;
    var k :| 0 <= k < |at| && at[k] == j;
    var l := |at| - 1;
    assert k == l || at[k] < at[l];
    BetweenShares(fields, j, at[l], n);
    SharedPlace(fields, at[l], n);
  }

  lemma NarrowsLast(fields: seq<Field>, m: seq<Slot>, gone: set<nat>, n: nat, at: seq<nat>, known: seq<Field>,
                    left: seq<Slot>)
    requires n < |fields| && |m| == Members(fields, |fields|) && |at| > 0
    requires Narrows(fields, m, gone, n, at, known, left)
    ensures |at| == |known| && |left| == Members(known, |known|)
    ensures forall k, l :: 0 <= k < |at| && 0 <= l < |at| ==>
      (Place(known, k) == Place(known, l) <==> Place(fields, at[k]) == Place(fields, at[l]))
    ensures forall k :: 0 <= k < |at| ==> at[k] < n
    ensures Stays(fields, m, gone, at[|at| - 1], known, left, |at| - 1)
  {
    hide Place, Members, Stays;
  }

  /** The field after the last one, in its union. */
  lemma Rejoins(fields: seq<Field>, m: seq<Slot>, gone: set<nat>, n: nat, at: seq<nat>, known: seq<Field>,
                left: seq<Slot>)
    requires n < |fields| && |m| == Members(fields, |fields|) && |at| == |known| > 0
    requires SharesKept(fields, gone, n) && |left| == Members(known, |known|)
    requires at[|at| - 1] < n && Place(fields, at[|at| - 1]) == Place(fields, n)
    requires fields[at[|at| - 1]].rule.Oneof? && fields[n].rule.Oneof?
    requires Stays(fields, m, gone, at[|at| - 1], known, left, |at| - 1)
    ensures
      var more := known + [Rejoined(fields, gone, n)];
      && |left| == Members(more, |more|)
      && Place(more, |known|) == Place(known, |known| - 1)
      && Stays(fields, m, gone, n, more, left, |known|)
  {
    hide SharesKept, Members;
    var g := Rejoined(fields, gone, n);
    var more := known + [g];
    JoinsLast(known, g);
  }

  lemma JoinsLast(known: seq<Field>, g: Field)
    requires known != [] && known[|known| - 1].rule.Oneof? && g.rule == Oneof(true)
    ensures Members(known + [g], |known| + 1) == Members(known, |known|)
    ensures Place(known + [g], |known|) == Place(known, |known| - 1)
  {
    var more := known + [g];
    MembersPrefix(known, [g], |known|);
    assert more[|known| - 1] == known[|known| - 1] && more[|known|] == g;
    assert Joined(more, |known|);
  }

  lemma NarrowsNew(fields: seq<Field>, m: seq<Slot>, gone: set<nat>, n: nat, at: seq<nat>, known: seq<Field>,
                   left: seq<Slot>)
    requires n < |fields| && |m| == Members(fields, |fields|) && fields[n].tag !in gone
    requires Narrows(fields, m, gone, n, at, known, left) && !SharesKept(fields, gone, n)
    ensures
      Narrows(fields, m, gone, n + 1, at + [n], known + [Rejoined(fields, gone, n)],
              left + [SlotLeft(fields, gone, m, n)])
  {
    var g, s := Rejoined(fields, gone, n), SlotLeft(fields, gone, m, n);
    var more, longer := known + [g], left + [s];
    MembersPrefix(known, [g], |known|);
    assert !(|more| > 1 && Joined(more, |known|));
    assert Members(more, |more|) == Members(more, |known|) + 1;
    assert Place(more, |known|) == |left|;
    KeepsOld(fields, m, gone, n, at, known, left, g, longer);
    assert Stays(fields, m, gone, n, more, longer, |known|);
    forall k | 0 <= k < |at| ensures Place(more, k) != Place(more, |known|) && Place(fields, at[k]) != Place(fields, n) {
      PlacePrefix(known, [g], k);
      assert at[k] in at;
      NotShared(fields, gone, at[k], n);
    }
    NarrowsBy(fields, m, gone, n, at, known, left, g, longer);
  }

  lemma NotShared(fields: seq<Field>, gone: set<nat>, j: nat, n: nat)
    requires j < n < |fields| && fields[j].tag !in gone && !SharesKept(fields, gone, n)
    ensures Place(fields, j) != Place(fields, n)
  {
  }

  /** Fields that were there are where they were. */
  lemma KeepsOld(fields: seq<Field>, m: seq<Slot>, gone: set<nat>, n: nat, at: seq<nat>, known: seq<Field>,
                 left: seq<Slot>, g: Field, longer: seq<Slot>)
    requires n < |fields| && |m| == Members(fields, |fields|) && Narrows(fields, m, gone, n, at, known, left)
    requires left <= longer
    ensures forall k :: 0 <= k < |at| ==> Stays(fields, m, gone, at[k], known + [g], longer, k)
    ensures forall k :: 0 <= k < |at| ==> Place(known + [g], k) == Place(known, k)
  {
    hide Place, SlotLeft;
    forall k | 0 <= k < |at|
      ensures Stays(fields, m, gone, at[k], known + [g], longer, k) && Place(known + [g], k) == Place(known, k)
    {
      assert Stays(fields, m, gone, at[k], known, left, k);
      PlacePrefix(known, [g], k);
    }
  }

  lemma AtGrows(fields: seq<Field>, gone: set<nat>, n: nat, at: seq<nat>)
    requires n < |fields| && fields[n].tag !in gone
    requires forall i :: 0 <= i < n ==> (i in at <==> fields[i].tag !in gone)
    ensures forall i :: 0 <= i < n + 1 ==> (i in at + [n] <==> fields[i].tag !in gone)
  {
    forall i | 0 <= i < n + 1 ensures i in at + [n] <==> fields[i].tag !in gone {
      assert i in at + [n] <==> i in at || i in [n];
    }
  }

  lemma StayGrows(fields: seq<Field>, m: seq<Slot>, gone: set<nat>, n: nat, at: seq<nat>, known: seq<Field>,
                  longer: seq<Slot>)
    requires n < |fields| && |m| == Members(fields, |fields|) && |known| == |at| + 1
    requires forall k :: 0 <= k < |at| ==> at[k] < n && Stays(fields, m, gone, at[k], known, longer, k)
    requires Stays(fields, m, gone, n, known, longer, |at|)
    ensures forall k :: 0 <= k < |at| + 1 ==>
      (at + [n])[k] < n + 1 && Stays(fields, m, gone, (at + [n])[k], known, longer, k)
  {
    hide Place, Members, Stays;
  }

  lemma PlacesGrow(fields: seq<Field>, n: nat, at: seq<nat>, known: seq<Field>, g: Field)
    requires n < |fields| && |known| == |at| && forall k :: 0 <= k < |at| ==> at[k] < n
    requires forall k :: 0 <= k < |at| ==> Place(known + [g], k) == Place(known, k)
    requires forall k, l :: 0 <= k < |at| && 0 <= l < |at| ==>
      (Place(known, k) == Place(known, l) <==> Place(fields, at[k]) == Place(fields, at[l]))
    requires forall k :: 0 <= k < |at| ==>
      (Place(known + [g], k) == Place(known + [g], |known|) <==> Place(fields, at[k]) == Place(fields, n))
    ensures forall k, l :: 0 <= k < |at| + 1 && 0 <= l < |at| + 1 ==>
      (Place(known + [g], k) == Place(known + [g], l) <==>
       Place(fields, (at + [n])[k]) == Place(fields, (at + [n])[l]))
  {
    hide Place;
    forall k, l | 0 <= k < |at| + 1 && 0 <= l < |at| + 1
      ensures Place(known + [g], k) == Place(known + [g], l) <==>
              Place(fields, (at + [n])[k]) == Place(fields, (at + [n])[l])
    {
    }
  }

  lemma NarrowsBy(fields: seq<Field>, m: seq<Slot>, gone: set<nat>, n: nat, at: seq<nat>, known: seq<Field>,
                  left: seq<Slot>, g: Field, longer: seq<Slot>)
    requires n < |fields| && |m| == Members(fields, |fields|) && fields[n].tag !in gone
    requires Narrows(fields, m, gone, n, at, known, left) && |longer| == Members(known + [g], |known| + 1)
    requires forall k :: 0 <= k < |at| ==> Stays(fields, m, gone, at[k], known + [g], longer, k)
    requires forall k :: 0 <= k < |at| ==> Place(known + [g], k) == Place(known, k)
    requires Stays(fields, m, gone, n, known + [g], longer, |known|)
    requires forall k :: 0 <= k < |at| ==>
      (Place(known + [g], k) == Place(known + [g], |known|) <==> Place(fields, at[k]) == Place(fields, n))
    ensures Narrows(fields, m, gone, n + 1, at + [n], known + [g], longer)
  {
    hide Place, Members, Stays;
    AtGrows(fields, gone, n, at);
    StayGrows(fields, m, gone, n, at, known + [g], longer);
    PlacesGrow(fields, n, at, known, g);
  }

  // ---------- reading with fewer fields ----------

  lemma NarrowWellFormed(fields: seq<Field>, m: seq<Slot>, gone: set<nat>, at: seq<nat>, known: seq<Field>,
                         left: seq<Slot>)
    requires WellFormed(fields) && |m| == Members(fields, |fields|)
    requires Narrows(fields, m, gone, |fields|, at, known, left)
    ensures WellFormed(known)
    ensures forall i :: 0 <= i < |fields| && fields[i].tag in gone ==> Find(known, fields[i].tag, 0).None?
  {
    hide Place, Members, SlotLeft;
    forall k | 0 <= k < |known| ensures known[k].tag == fields[at[k]].tag && known[k].tag !in gone && WellFormedField(known[k]) {
      assert Stays(fields, m, gone, at[k], known, left, k) && at[k] in at;
      assert WellFormedField(fields[at[k]]);
    }
    forall k, l | 0 <= k < l < |known| ensures known[k].tag != known[l].tag {
      assert fields[at[k]].tag != fields[at[l]].tag;
    }
  }

  lemma NarrowValid(fields: seq<Field>, m: seq<Slot>, gone: set<nat>, at: seq<nat>, known: seq<Field>, left: seq<Slot>)
    requires WellFormed(fields) && ValidMessage(fields, m)
    requires Narrows(fields, m, gone, |fields|, at, known, left)
    ensures ValidMessage(known, left)
  {
    forall k | 0 <= k < |known|
      ensures Place(known, k) < |left| && ValidSlot(known[k], left[Place(known, k)])
      ensures known[k].rule.Oneof? ==>
        left[Place(known, k)].which == 0 || Chosen(known, left, |known|, Place(known, k))
    {
      NarrowValidAt(fields, m, gone, at, known, left, k);
    }
  }

  lemma NarrowValidAt(fields: seq<Field>, m: seq<Slot>, gone: set<nat>, at: seq<nat>, known: seq<Field>,
                      left: seq<Slot>, k: nat)
    requires WellFormed(fields) && ValidMessage(fields, m) && k < |known|
    requires Narrows(fields, m, gone, |fields|, at, known, left)
    ensures Place(known, k) < |left| && ValidSlot(known[k], left[Place(known, k)])
    ensures known[k].rule.Oneof? ==>
      left[Place(known, k)].which == 0 || Chosen(known, left, |known|, Place(known, k))
  {
    hide Place, Members, ValidDatum;
    var i := at[k];
    assert Stays(fields, m, gone, i, known, left, k) && i in at;
    assert WellFormedField(fields[i]) && ValidSlot(fields[i], m[Place(fields, i)]);
    var s := left[Place(known, k)];
    if known[k].rule.Oneof? && s.which != 0 {
      var j :| 0 <= j < |fields| && Place(fields, j) == Place(fields, i) && Picks(m[Place(fields, i)], fields[j]);
      assert j in at;
      var l :| 0 <= l < |at| && at[l] == j;
      assert Stays(fields, m, gone, j, known, left, l);
      assert Place(known, l) == Place(known, k) && Picks(s, known[l]);
    }
  }

  /** A field that stays writes the same. */
  lemma WritesSame(fields: seq<Field>, m: seq<Slot>, gone: set<nat>, at: seq<nat>, known: seq<Field>, left: seq<Slot>,
                   k: nat)
    requires WellFormed(fields) && ValidMessage(fields, m) && k < |known|
    requires Narrows(fields, m, gone, |fields|, at, known, left)
    ensures Place(known, k) < |left|
    ensures EncodeField(known[k], left[Place(known, k)]) == EncodeField(fields[at[k]], m[Place(fields, at[k])])
  {
    hide Place, Members, ValidDatum, EncodeDatum, EncodePacked, EncodeUnpacked, IsZero;
    var i := at[k];
    assert Stays(fields, m, gone, i, known, left, k) && i in at;
    assert ValidSlot(fields[i], m[Place(fields, i)]) && WellFormedField(fields[i]);
    var f, g := fields[i], known[k];
    if f.rule.Oneof? {
      assert EncodeTagged(f, m[Place(fields, i)].v) == EncodeTagged(g, m[Place(fields, i)].v);
    } else {
      assert f == g;
    }
  }

  lemma {:induction false} ReadsOnlyKnown(fields: seq<Field>, m: seq<Slot>, gone: set<nat>, at: seq<nat>,
                                          known: seq<Field>, left: seq<Slot>, p: Progress, i: nat, j: nat)
    returns (q: Progress)
    requires WellFormed(fields) && ValidMessage(fields, m) && WellFormed(known) && ValidMessage(known, left)
    requires Narrows(fields, m, gone, |fields|, at, known, left)
    requires i <= |known| && j <= |fields| && Reached(known, left, p, i)
    requires (forall k :: 0 <= k < i ==> at[k] < j) && forall k :: i <= k < |at| ==> at[k] >= j
    requires EncodeFields(fields, m, j).Some? && |EncodeFields(fields, m, j).value| < TWO_32
    ensures Shape(known, p) && Reached(known, left, q, |known|)
    ensures Loop(known, EncodeFields(fields, m, j).value, p) == Some(q)
    decreases |fields| - j
  {
    hide Narrows, EncodeField, EncodeFields, Loop, Shape, Reached, ValidMessage, WellFormed, Place, Find;
    ReachedShape(known, left, p, i);
    SameCount(fields, m);
    FirstWritten(fields, m, j);
    if j == |fields| {
      NothingLeft(known, p);
      AllPassed(fields, m, gone, at, known, left, i);
      return p;
    }
    var rest := EncodeFields(fields, m, j + 1).value;
    NarrowWellFormed(fields, m, gone, at, known, left);
    if fields[j].tag in gone {
      FieldValid(fields, m, j);
      UnknownField(known, fields[j], m[Place(fields, j)], rest, p);
      NotKept(fields, m, gone, at, known, left, i, j);
      q := ReadsOnlyKnown(fields, m, gone, at, known, left, p, i, j + 1);
    } else {
      KeptHere(fields, m, gone, at, known, left, i, j);
      WritesSame(fields, m, gone, at, known, left, i);
      var next := FieldStep(known, left, p, i, rest);
      q := ReadsOnlyKnown(fields, m, gone, at, known, left, next, i + 1, j + 1);
    }
  }

  lemma FirstWritten(fields: seq<Field>, m: seq<Slot>, j: nat)
    requires j <= |fields| && |m| == Members(fields, |fields|) && EncodeFields(fields, m, j).Some?
    ensures
      var all := EncodeFields(fields, m, j).value;
      if j == |fields| then all == []
      else
        var first, rest := EncodeField(fields[j], m[Place(fields, j)]), EncodeFields(fields, m, j + 1);
        first.Some? && rest.Some? && all == first.value + rest.value
  {
    hide EncodeField, Place;
  }

  lemma NothingLeft(known: seq<Field>, p: Progress)
    requires Shape(known, p)
    ensures Loop(known, [], p) == Some(p)
  {
  }

  lemma ReachedShape(fields: seq<Field>, m: seq<Slot>, p: Progress, i: nat)
    requires i <= |fields| && Reached(fields, m, p, i)
    ensures Shape(fields, p)
  {
  }

  lemma FieldValid(fields: seq<Field>, m: seq<Slot>, j: nat)
    requires WellFormed(fields) && ValidMessage(fields, m) && j < |fields|
    ensures Place(fields, j) < |m| && WellFormedField(fields[j]) && ValidSlot(fields[j], m[Place(fields, j)])
  {
  }

  lemma AllPassed(fields: seq<Field>, m: seq<Slot>, gone: set<nat>, at: seq<nat>, known: seq<Field>, left: seq<Slot>,
                  i: nat)
    requires |m| == Members(fields, |fields|) && Narrows(fields, m, gone, |fields|, at, known, left)
    requires i <= |known| && forall k :: i <= k < |at| ==> at[k] >= |fields|
    ensures i == |known|
  {
    hide Place, Members, Stays;
    if i < |known| {
      KeptInOrder(fields, m, gone, at, known, left, i, i);
    }
  }

  lemma KeptInOrder(fields: seq<Field>, m: seq<Slot>, gone: set<nat>, at: seq<nat>, known: seq<Field>, left: seq<Slot>,
                    i: nat, k: nat)
    requires |m| == Members(fields, |fields|) && Narrows(fields, m, gone, |fields|, at, known, left)
    requires i <= k < |at|
    ensures at[i] <= at[k] < |fields|
  {
    hide Place, Members, Stays;
  }

  lemma NotKept(fields: seq<Field>, m: seq<Slot>, gone: set<nat>, at: seq<nat>, known: seq<Field>, left: seq<Slot>,
                i: nat, j: nat)
    requires |m| == Members(fields, |fields|) && Narrows(fields, m, gone, |fields|, at, known, left)
    requires j < |fields| && fields[j].tag in gone
    requires i <= |known| && forall k :: i <= k < |at| ==> at[k] >= j
    ensures forall k :: i <= k < |at| ==> at[k] >= j + 1
  {
    hide Place, Members, Stays;
    forall k | i <= k < |at| ensures at[k] >= j + 1 {
      assert at[k] in at;
    }
  }

  lemma KeptHere(fields: seq<Field>, m: seq<Slot>, gone: set<nat>, at: seq<nat>, known: seq<Field>, left: seq<Slot>,
                 i: nat, j: nat)
    requires |m| == Members(fields, |fields|) && Narrows(fields, m, gone, |fields|, at, known, left)
    requires j < |fields| && fields[j].tag !in gone && i <= |known|
    requires (forall k :: 0 <= k < i ==> at[k] < j) && forall k :: i <= k < |at| ==> at[k] >= j
    ensures i < |known| == |at| && at[i] == j
    ensures forall k :: i + 1 <= k < |at| ==> at[k] >= j + 1
  {
    hide Place, Members, Stays;
    assert j in at;
    var k :| 0 <= k < |at| && at[k] == j;
    KeptInOrder(fields, m, gone, at, known, left, i, k);
  }

  /** Forward compatibility: a reader whose descriptor lacks some of the fields, at the top level, gets the others as if
      the message had been written without them. */
  lemma ForwardCompatible(fields: seq<Field>, m: seq<Slot>, gone: set<nat>)
    requires WellFormed(fields) && ValidMessage(fields, m)
    requires Encode(fields, m).Some? ==> |Encode(fields, m).value| < TWO_32
    ensures Encode(fields, m).Some?
    ensures
      var at, known := At(fields, gone, |fields|), Without(fields, gone, |fields|);
      var left := SlotsLeft(fields, gone, m, |fields|);
      && Narrows(fields, m, gone, |fields|, at, known, left)
      && WellFormed(known) && ValidMessage(known, left)
      && var r := Decode(known, Encode(fields, m).value);
         r.Some? && CopiedMessage(known, left, r.value) &&
         (RestoredMessage(known, left, r.value) <==> KeptMessage(known, left))
  {
    hide Narrows, WellFormed, ValidMessage, Place, KeptMessage, RestoredMessage;
    var at, known := At(fields, gone, |fields|), Without(fields, gone, |fields|);
    SameCount(fields, m);
    var left := SlotsLeft(fields, gone, m, |fields|);
    FieldsEncode(fields, m, 0);
    WithoutNarrows(fields, m, gone, |fields|);
    NarrowWellFormed(fields, m, gone, at, known, left);
    NarrowValid(fields, m, gone, at, known, left);
    DefaultsReach(known, left);
    var p := Progress(Defaults(known, |known|), None, 0, {});
    var q := ReadsOnlyKnown(fields, m, gone, at, known, left, p, 0, 0);
    EndIsCopy(known, left, q);
    CopyRestoresMessage(known, left, q.slots);
  }

  lemma SameCount(fields: seq<Field>, m: seq<Slot>)
    requires ValidMessage(fields, m)
    ensures |m| == Members(fields, |fields|)
  {
  }

  lemma EndIsCopy(fields: seq<Field>, m: seq<Slot>, q: Progress)
    requires WellFormed(fields) && ValidMessage(fields, m) && Reached(fields, m, q, |fields|)
    ensures Shape(fields, q) && FixedComplete(fields, q) && AllSeen(fields, q) && CopiedMessage(fields, m, q.slots)
  {
    hide CopiedSlot, ValidSlot, WellFormed;
    forall i | 0 <= i < |fields| ensures CopiedSlot(fields[i], m[Place(fields, i)], q.slots[Place(fields, i)]) {
      EndCopied(fields, m, q, i);
    }
  }
}
