/** What decoding makes of what was encoded, for every message of every descriptor (nanopb/pb_encode.c, lines 144-541;
    nanopb/pb_decode.c, lines 406-480, 859-890, 925-1073, 1503-1525): it restores the message, but for fields that the
    encoder leaves out as zero and whose default is something else. */
module PbRoundTrip {
  import opened Coding
  import opened DbFormat
  import opened PbFields
  import opened PbEncode
  import opened PbDecode

  // ---------- which messages ----------

  /** Field numbers are distinct and fit a tag. */
  predicate WellFormed(fields: seq<Field>) {
    && DistinctTags(fields)
    && forall i :: 0 <= i < |fields| ==> WellFormedField(fields[i])
  }

  predicate WellFormedField(f: Field) {
    && 0 < f.tag < 0x2000_0000
    && (f.kind.Submessage? ==> WellFormed(f.kind.fields))
  }

  predicate FitsSigned(n: int, size: nat) {
    0 <= n + Range(size) / 2 < Range(size)
  }

  predicate ValidDatum(k: Kind, d: Datum)
    decreases k, 0
  {
    match k
    case Boolean => d.Int?
    case Signed(size) => d.Int? && IntegerSize(size) && FitsSigned(d.n, size)
    case Unsigned(size) => d.Int? && IntegerSize(size) && 0 <= d.n < Range(size)
    case ZigZag(size) => d.Int? && IntegerSize(size) && FitsSigned(d.n, size)
    case Fixed32 => d.Int? && 0 <= d.n < TWO_32
    case Fixed64 => d.Int? && 0 <= d.n < TWO_64
    case ByteArray(size) => d.Data? && |d.bytes| + BYTES_HEADER <= size
    case CString(size) => d.Data? && |d.bytes| <= size && 0 in d.bytes
    case FixedBytes(size) => d.Data? && |d.bytes| == size
    case Submessage(fields) => d.Struct? && ValidMessage(fields, d.slots)
  }

  predicate ValidSlot(f: Field, s: Slot)
    decreases f
  {
    match f.rule
    case Required => s.Plain? && ValidDatum(f.kind, s.v)
    case Optional(hasFlag) =>
      if hasFlag then s.Maybe? && (s.has ==> ValidDatum(f.kind, s.v)) else s.Plain? && ValidDatum(f.kind, s.v)
    case Repeated(n, counted) =>
      && s.Many?
      && |s.items| == n
      && (counted ==> s.count <= n)
      && forall k :: 0 <= k < Elements(f, s) ==> ValidDatum(f.kind, s.items[k])
    case Oneof(_) => s.Union? && (s.which == f.tag ==> ValidDatum(f.kind, s.v))
  }

  /** The number of elements in use. */
  function Elements(f: Field, s: Slot): nat
    requires f.rule.Repeated? && s.Many?
  {
    if f.rule.counted then s.count else f.rule.arraySize
  }

  /** The which_ member names this field. */
  predicate Picks(s: Slot, f: Field) {
    s.Union? && s.which == f.tag
  }

  /** Some field before `n` in this member is the one that which_ names. */
  predicate Chosen(fields: seq<Field>, m: seq<Slot>, n: nat, place: nat)
    requires n <= |fields| && place < |m|
  {
    exists j :: 0 <= j < n && Place(fields, j) == place && Picks(m[place], fields[j])
  }

  predicate ValidMessage(fields: seq<Field>, m: seq<Slot>)
    decreases fields
  {
    && |m| == Members(fields, |fields|)
    && forall i :: 0 <= i < |fields| ==>
         && Place(fields, i) < |m|
         && ValidSlot(fields[i], m[Place(fields, i)])
         && (fields[i].rule.Oneof? ==>
               m[Place(fields, i)].which == 0 || Chosen(fields, m, |fields|, Place(fields, i)))
  }

  // ---------- what is restored ----------

  /** Equal where it means anything: booleans by truth, strings up to the terminator, which the copy has. */
  predicate Restored(k: Kind, a: Datum, b: Datum)
    decreases k, 0
  {
    match k
    case Boolean => a.Int? && b.Int? && (a.n != 0 <==> b.n != 0)
    case CString(_) =>
      a.Data? && b.Data? && a.bytes[..StrLen(a.bytes)] == b.bytes[..StrLen(b.bytes)] && 0 in b.bytes
    case Submessage(fields) => a.Struct? && b.Struct? && RestoredMessage(fields, a.slots, b.slots)
    case _ => a == b
  }

  predicate RestoredSlot(f: Field, a: Slot, b: Slot)
    decreases f
  {
    match f.rule
    case Required => a.Plain? && b.Plain? && Restored(f.kind, a.v, b.v)
    case Optional(hasFlag) =>
      if hasFlag then a.Maybe? && b.Maybe? && a.has == b.has && (a.has ==> Restored(f.kind, a.v, b.v))
      else a.Plain? && b.Plain? && Restored(f.kind, a.v, b.v)
    case Repeated(n, counted) =>
      && a.Many? && b.Many?
      && |a.items| == |b.items| == n
      && Elements(f, a) == Elements(f, b) <= n
      && forall k :: 0 <= k < Elements(f, a) ==> Restored(f.kind, a.items[k], b.items[k])
    case Oneof(_) => a.Union? && b.Union? && a.which == b.which && (a.which == f.tag ==> Restored(f.kind, a.v, b.v))
  }

  predicate RestoredMessage(fields: seq<Field>, a: seq<Slot>, b: seq<Slot>)
    decreases fields
  {
    && |a| == |b| == Members(fields, |fields|)
    && forall i :: 0 <= i < |fields| ==>
         && Place(fields, i) < |a|
         && RestoredSlot(fields[i], a[Place(fields, i)], b[Place(fields, i)])
  }

  // ---------- what decoding gives ----------

  /** As `Restored`, but a field that was left out as default is at the default of its descriptor. */
  predicate Copied(k: Kind, a: Datum, b: Datum)
    decreases k, 0
  {
    match k
    case Boolean => a.Int? && b.Int? && (a.n != 0 <==> b.n != 0)
    case CString(_) =>
      a.Data? && b.Data? && a.bytes[..StrLen(a.bytes)] == b.bytes[..StrLen(b.bytes)] && 0 in b.bytes
    case Submessage(fields) => a.Struct? && b.Struct? && CopiedMessage(fields, a.slots, b.slots)
    case _ => a == b
  }

  predicate CopiedSlot(f: Field, a: Slot, b: Slot)
    decreases f
  {
    match f.rule
    case Required => a.Plain? && b.Plain? && Copied(f.kind, a.v, b.v)
    case Optional(hasFlag) =>
      if hasFlag then a.Maybe? && b.Maybe? && a.has == b.has && (a.has ==> Copied(f.kind, a.v, b.v))
      else if IsDefault(f, a) then a.Plain? && b == DefaultSlot(f)
      else a.Plain? && b.Plain? && Copied(f.kind, a.v, b.v)
    case Repeated(n, counted) =>
      && a.Many? && b.Many?
      && |a.items| == |b.items| == n
      && Elements(f, a) == Elements(f, b) <= n
      && forall k :: 0 <= k < Elements(f, a) ==> Copied(f.kind, a.items[k], b.items[k])
    case Oneof(_) => a.Union? && b.Union? && a.which == b.which && (a.which == f.tag ==> Copied(f.kind, a.v, b.v))
  }

  predicate CopiedMessage(fields: seq<Field>, a: seq<Slot>, b: seq<Slot>)
    decreases fields
  {
    && |a| == |b| == Members(fields, |fields|)
    && forall i :: 0 <= i < |fields| ==>
         && Place(fields, i) < |a|
         && CopiedSlot(fields[i], a[Place(fields, i)], b[Place(fields, i)])
  }

  // ---------- every valid message has an encoding ----------

  lemma {:induction false} DatumEncodes(k: Kind, d: Datum)
    requires ValidDatum(k, d)
    ensures EncodeDatum(k, d).Some? && |EncodeDatum(k, d).value| > 0
    decreases k, 0
  {
    if k.Submessage? {
      FieldsEncode(k.fields, d.slots, 0);
    }
  }

  lemma {:induction false} PackedEncodes(k: Kind, items: seq<Datum>, i: nat, n: nat)
    requires i <= n <= |items| && forall j :: i <= j < n ==> ValidDatum(k, items[j])
    ensures EncodePacked(k, items, i, n).Some?
    decreases k, 1, n - i
  {
    hide ValidDatum, EncodeDatum;
    if i < n {
      DatumEncodes(k, items[i]);
      PackedEncodes(k, items, i + 1, n);
    }
  }

  lemma {:induction false} UnpackedEncodes(f: Field, items: seq<Datum>, i: nat, n: nat)
    requires i <= n <= |items| && forall j :: i <= j < n ==> ValidDatum(f.kind, items[j])
    ensures EncodeUnpacked(f, items, i, n).Some?
    decreases f, 0, n - i
  {
    hide ValidDatum, EncodeDatum;
    if i < n {
      DatumEncodes(f.kind, items[i]);
      UnpackedEncodes(f, items, i + 1, n);
    }
  }

  lemma {:induction false} FieldEncodes(f: Field, s: Slot)
    requires ValidSlot(f, s)
    ensures EncodeField(f, s).Some?
    decreases f, 1
  {
    match f.rule
    case Required => DatumEncodes(f.kind, s.v);
    case Optional(hasFlag) =>
      if !hasFlag || s.has {
        DatumEncodes(f.kind, s.v);
      }
    case Repeated(n, counted) =>
      UnpackedEncodes(f, s.items, 0, Elements(f, s));
      PackedEncodes(f.kind, s.items, 0, Elements(f, s));
    case Oneof(_) =>
      if s.which == f.tag {
        DatumEncodes(f.kind, s.v);
      }
  }

  lemma {:induction false} FieldsEncode(fields: seq<Field>, m: seq<Slot>, i: nat)
    requires i <= |fields| && ValidMessage(fields, m)
    ensures EncodeFields(fields, m, i).Some?
    decreases fields, 0, |fields| - i
  {
    if i < |fields| {
      FieldEncodes(fields[i], m[Place(fields, i)]);
      FieldsEncode(fields, m, i + 1);
    }
  }

  // ---------- integers ----------

  lemma VarintReads(v: nat, rest: Bytes)
    requires v < TWO_64
    ensures ReadVarint(Varint(v) + rest, 10) == Some((v, |Varint(v)|))
  {
    Powers();
    VarintRoundTrip(v, rest, 10);
  }

  lemma SignedReads(n: int, size: nat)
    requires IntegerSize(size) && FitsSigned(n, size)
    ensures FromSigned(n % TWO_64, size) == Some(Int(n))
    ensures NarrowSigned(n, size) == Some(Int(n))
  {
    if size == 8 {
      AsSignedReads(n, TWO_64);
    } else {
      LowBits(n);
      AsSignedReads(n, TWO_32);
      if size == 1 {
        AsSignedReads(n, 0x100);
      } else if size == 2 {
        AsSignedReads(n, 0x1_0000);
      }
    }
  }

  lemma AsSignedReads(n: int, range: nat)
    requires range > 0 && -(range / 2) <= n < range / 2
    ensures AsSigned(n % range, range) == n
  {
    if n >= 0 {
      assert n % range == n;
    } else {
      assert n == -1 * range + (n + range);
      assert n % range == n + range;
    }
  }

  lemma LowBits(n: int)
    ensures n % TWO_64 % TWO_32 == n % TWO_32
  {
    var q, r := n / TWO_64, n % TWO_64;
    var h, l := r / TWO_32, r % TWO_32;
    assert n == (q * TWO_32 + h) * TWO_32 + l;
  }

  lemma ZigZagReads(n: int)
    requires -TWO_64 / 2 <= n < TWO_64 / 2
    ensures ZigZagged(n) < TWO_64 && UnZigZag(ZigZagged(n)) == n
  {
  }

  lemma PrefixedReads(s: Bytes, rest: Bytes)
    requires |s| < TWO_32
    ensures ReadPrefixed(Prefixed(s) + rest) == Some((s, |Prefixed(s)|))
  {
    Varint32RoundTrip(|s|, s + rest);
    assert Prefixed(s) + rest == Varint(|s|) + (s + rest);
  }

  lemma {:induction false} StrLenReads(s: Bytes)
    requires 0 !in s
    ensures StrLen(s + [0]) == |s|
  {
    if s != [] {
      assert (s + [0])[1..] == s[1..] + [0];
      StrLenReads(s[1..]);
    }
  }

  // ---------- one value ----------

  lemma SignedRoundTrip(k: Kind, d: Datum, there: Datum, rest: Bytes)
    requires k.Signed? && ValidDatum(k, d)
    ensures EncodeDatum(k, d).Some?
    ensures
      var e := EncodeDatum(k, d).value;
      var r := DecodeDatum(k, there, e + rest);
      r.Some? && r.value.1 == |e| && Copied(k, d, r.value.0)
  {
    hide ReadVarint, Varint, FromSigned, NarrowSigned;
    SignedReads(d.n, k.size);
    VarintReads(d.n % TWO_64, rest);
  }

  lemma ZigZagRoundTrip(k: Kind, d: Datum, there: Datum, rest: Bytes)
    requires k.ZigZag? && ValidDatum(k, d)
    ensures EncodeDatum(k, d).Some?
    ensures
      var e := EncodeDatum(k, d).value;
      var r := DecodeDatum(k, there, e + rest);
      r.Some? && r.value.1 == |e| && Copied(k, d, r.value.0)
  {
    hide ReadVarint, Varint, FromSigned, NarrowSigned, ZigZagged, UnZigZag;
    SignedReads(d.n, k.size);
    ZigZagReads(d.n);
    VarintReads(ZigZagged(d.n), rest);
  }

  lemma ScalarRoundTrip(k: Kind, d: Datum, there: Datum, rest: Bytes)
    requires Packable(k) && ValidDatum(k, d)
    ensures EncodeDatum(k, d).Some?
    ensures
      var e := EncodeDatum(k, d).value;
      var r := DecodeDatum(k, there, e + rest);
      r.Some? && r.value.1 == |e| && Copied(k, d, r.value.0)
  {
    hide ReadVarint32, ReadVarint, Varint, EncodeFixed32, DecodeFixed32, EncodeFixed64, DecodeFixed64;
    match k
    case Boolean => Varint32RoundTrip(if d.n != 0 then 1 else 0, rest);
    case Unsigned(size) => VarintReads(d.n, rest);
    case Fixed32 => Fixed32RoundTrip(d.n, rest);
    case Fixed64 => Fixed64RoundTrip(d.n, rest);
    case Signed(_) => SignedRoundTrip(k, d, there, rest);
    case ZigZag(_) => ZigZagRoundTrip(k, d, there, rest);
  }

  lemma StringRoundTrip(k: Kind, d: Datum, there: Datum, rest: Bytes)
    requires k.ByteArray? || k.CString? || k.FixedBytes?
    requires ValidDatum(k, d) && |EncodeDatum(k, d).value| < TWO_32
    ensures
      var e := EncodeDatum(k, d).value;
      var r := DecodeDatum(k, there, e + rest);
      r.Some? && r.value.1 == |e| && Copied(k, d, r.value.0)
  {
    var s := if k.CString? then d.bytes[..StrLen(d.bytes)] else d.bytes;
    PrefixedReads(s, rest);
    if k.CString? {
      StrLenReads(s);
      assert (s + [0])[..|s|] == s;
    }
  }

  /** What a message decodes into before it is read: every member at its default. */
  predicate Fresh(k: Kind, there: Datum) {
    k.Submessage? ==> there == Struct(Defaults(k.fields, |k.fields|))
  }

  lemma {:induction false} DatumRoundTrip(k: Kind, d: Datum, there: Datum, rest: Bytes)
    requires k.Submessage? ==> WellFormed(k.fields)
    requires ValidDatum(k, d) && Fresh(k, there)
    requires EncodeDatum(k, d).Some? && |EncodeDatum(k, d).value| < TWO_32
    ensures
      var e := EncodeDatum(k, d).value;
      var r := DecodeDatum(k, there, e + rest);
      r.Some? && r.value.1 == |e| && Copied(k, d, r.value.0)
    decreases k, 0
  {
    if Packable(k) {
      ScalarRoundTrip(k, d, there, rest);
    } else if k.Submessage? {
      var e := EncodeFields(k.fields, d.slots, 0).value;
      MessageCopied(k.fields, d.slots);
      PrefixedReads(e, rest);
    } else {
      StringRoundTrip(k, d, there, rest);
    }
  }

  lemma ElementRoundTrip(f: Field, d: Datum, there: Datum, rest: Bytes)
    requires WellFormedField(f) && ValidDatum(f.kind, d) && Fresh(f.kind, there)
    requires EncodeDatum(f.kind, d).Some? && |EncodeDatum(f.kind, d).value| < TWO_32
    ensures
      var e := EncodeDatum(f.kind, d).value;
      var r := DecodeDatum(f.kind, there, e + rest);
      r.Some? && r.value.1 == |e| && Copied(f.kind, d, r.value.0)
    decreases f, 0
  {
    DatumRoundTrip(f.kind, d, there, rest);
  }

  // ---------- a message, field by field ----------

  /** Member of field `j` once the first `i` fields have been decoded. */
  predicate SlotAt(fields: seq<Field>, m: seq<Slot>, slots: seq<Slot>, i: nat, j: nat)
    requires i <= |fields| && j < |fields| && |m| == |slots| == Members(fields, |fields|)
  {
    var f, l := fields[j], Place(fields, j);
    if f.rule.Oneof? then
      if j < i && Picks(m[l], f) then CopiedSlot(f, m[l], slots[l])
      else !Chosen(fields, m, i, l) ==> slots[l] == Union(0, Int(0))
    else if j < i then CopiedSlot(f, m[l], slots[l])
    else slots[l] == DefaultSlot(f)
  }

  predicate SeenUpTo(fields: seq<Field>, seen: set<nat>, i: nat)
    requires i <= |fields|
  {
    forall k :: 0 <= k < RequiredBefore(fields, i) && k < MAX_REQUIRED_FIELDS ==> k in seen
  }

  predicate SlotsAt(fields: seq<Field>, m: seq<Slot>, slots: seq<Slot>, i: nat)
    requires i <= |fields|
  {
    && |m| == |slots| == Members(fields, |fields|)
    && forall j :: 0 <= j < |fields| ==> SlotAt(fields, m, slots, i, j)
  }

  /** The loop has consumed the encodings of the first `i` fields. */
  predicate Reached(fields: seq<Field>, m: seq<Slot>, p: Progress, i: nat)
    requires i <= |fields|
  {
    && Shape(fields, p)
    && SlotsAt(fields, m, p.slots, i)
    && FixedComplete(fields, p)
    && (p.fixedField.Some? ==> p.fixedField.value < i)
    && SeenUpTo(fields, p.seen, i)
  }

  lemma ChosenGrows(fields: seq<Field>, m: seq<Slot>, n: nat, place: nat)
    requires n < |fields| && place < |m|
    ensures Chosen(fields, m, n, place) ==> Chosen(fields, m, n + 1, place)
  {
  }

  /** Field `i` wrote nothing. */
  lemma SlotAbsent(fields: seq<Field>, m: seq<Slot>, slots: seq<Slot>, i: nat, j: nat)
    requires |m| == |slots| == Members(fields, |fields|) && i < |fields| && j < |fields|
    requires SlotAt(fields, m, slots, i, j)
    requires fields[i].rule.Oneof? ==> !Picks(m[Place(fields, i)], fields[i])
    requires !fields[i].rule.Oneof? ==> CopiedSlot(fields[i], m[Place(fields, i)], slots[Place(fields, i)])
    ensures SlotAt(fields, m, slots, i + 1, j)
  {
    hide CopiedSlot, Chosen, DefaultSlot, Place, Members;
    ChosenGrows(fields, m, i, Place(fields, j));
  }

  /** Field `i` was decoded into `s`. */
  lemma SlotPresent(fields: seq<Field>, m: seq<Slot>, slots: seq<Slot>, i: nat, j: nat, s: Slot)
    requires |m| == |slots| == Members(fields, |fields|) && i < |fields| && j < |fields|
    requires i != j ==> fields[i].tag != fields[j].tag
    requires SlotAt(fields, m, slots, i, j)
    requires fields[i].rule.Oneof? ==> Picks(m[Place(fields, i)], fields[i])
    requires CopiedSlot(fields[i], m[Place(fields, i)], s)
    ensures SlotAt(fields, m, slots[Place(fields, i) := s], i + 1, j)
  {
    hide CopiedSlot, DefaultSlot, Place, Members;
    var l := Place(fields, j);
    ChosenGrows(fields, m, i, l);
    if l == Place(fields, i) && i != j {
      if i < j {
        SharedPlace(fields, i, j);
      } else {
        SharedPlace(fields, j, i);
      }
      assert Chosen(fields, m, i + 1, l);
    }
  }

  lemma AbsentReached(fields: seq<Field>, m: seq<Slot>, p: Progress, i: nat)
    requires WellFormed(fields) && ValidMessage(fields, m) && i < |fields| && Reached(fields, m, p, i)
    requires !fields[i].rule.Required?
    requires fields[i].rule.Oneof? ==> !Picks(m[Place(fields, i)], fields[i])
    requires
      !fields[i].rule.Oneof? ==> CopiedSlot(fields[i], m[Place(fields, i)], p.slots[Place(fields, i)])
    ensures Reached(fields, m, p, i + 1)
  {
    hide CopiedSlot, ValidMessage, SlotAt, WellFormed;
    var n := i + 1;
    forall j | 0 <= j < |fields| ensures SlotAt(fields, m, p.slots, n, j) {
      SlotAbsent(fields, m, p.slots, i, j);
    }
  }

  lemma PresentReached(fields: seq<Field>, m: seq<Slot>, p: Progress, i: nat, s: Slot, size: nat)
    requires WellFormed(fields) && ValidMessage(fields, m) && i < |fields| && Reached(fields, m, p, i)
    requires fields[i].rule.Oneof? ==> Picks(m[Place(fields, i)], fields[i])
    requires CopiedSlot(fields[i], m[Place(fields, i)], s)
    requires size == if Uncounted(fields[i]) then fields[i].rule.arraySize else p.fixedSize
    ensures Reached(fields, m, After(fields, i, p, s, size), i + 1)
  {
    hide CopiedSlot, ValidMessage, SlotAt, WellFormedField;
    var q, n := After(fields, i, p, s, size), i + 1;
    forall j | 0 <= j < |fields| ensures SlotAt(fields, m, q.slots, n, j) {
      assert i != j ==> fields[i].tag != fields[j].tag;
      SlotPresent(fields, m, p.slots, i, j, s);
    }
  }

  lemma {:induction false} FindsItself(fields: seq<Field>, i: nat, from: nat)
    requires DistinctTags(fields) && from <= i < |fields|
    ensures Find(fields, fields[i].tag, from) == Some(i)
    decreases i - from
  {
    if from < i {
      FindsItself(fields, i, from + 1);
    }
  }

  /** The fixed-count array read before, if any, is complete or is this very array. */
  predicate Continues(fields: seq<Field>, i: nat, p: Progress)
    requires Shape(fields, p) && i < |fields|
  {
    Uncounted(fields[i]) ==> p.fixedField == Some(i) || FixedComplete(fields, p)
  }

  lemma LoopOnce(fields: seq<Field>, v: nat, x: Bytes, rest: Bytes, p: Progress, q: Progress)
    requires 0 < v < TWO_32 && Shape(fields, p)
    requires Step(fields, v / 8, v % 8, x + rest, p) == Some((q, |x|))
    ensures Loop(fields, Varint(v) + x + rest, p) == Loop(fields, rest, q)
  {
    hide Step, ReadVarint32, Varint, Shape;
    Varint32RoundTrip(v, x + rest);
    var b := Varint(v) + x + rest;
    assert b == Varint(v) + (x + rest);
    assert b[|Varint(v)|..] == x + rest;
    assert (x + rest)[|x|..] == rest;
  }

  lemma LoopField(fields: seq<Field>, i: nat, wire: nat, x: Bytes, rest: Bytes, p: Progress, s: Slot, size: nat)
    requires WellFormed(fields) && i < |fields| && Shape(fields, p) && wire < 8 && Continues(fields, i, p)
    requires DecodeField(fields[i], wire, x + rest, p.slots[Place(fields, i)], StartSize(fields, i, p)) ==
             Some((s, size, |x|))
    ensures
      Loop(fields, TagBytes(fields[i].tag, wire) + x + rest, p) == Loop(fields, rest, After(fields, i, p, s, size))
  {
    hide DecodeField, After, Loop, Find;
    var v := fields[i].tag * 8 + wire;
    FindsItself(fields, i, 0);
    assert v / 8 == fields[i].tag && v % 8 == wire;
    LoopOnce(fields, v, x, rest, p, After(fields, i, p, s, size));
  }

  // ---------- arrays ----------

  lemma {:induction false} PackedRoundTrip(k: Kind, items: seq<Datum>, i: nat, n: nat, there: seq<Datum>)
    returns (out: seq<Datum>)
    requires Packable(k) && i <= n <= |items| && n <= |there|
    requires forall j :: i <= j < n ==> ValidDatum(k, items[j])
    ensures EncodePacked(k, items, i, n).Some?
    ensures DecodePacked(k, EncodePacked(k, items, i, n).value, there, i) == Some((out, n))
    ensures |out| == |there| && forall j :: 0 <= j < i ==> out[j] == there[j]
    ensures forall j :: i <= j < n ==> Copied(k, items[j], out[j])
    decreases n - i
  {
    hide EncodeDatum, DecodeDatum, ValidDatum, Copied;
    if i == n {
      return there;
    }
    PackedEncodes(k, items, i + 1, n);
    var rest := EncodePacked(k, items, i + 1, n).value;
    ScalarRoundTrip(k, items[i], there[i], rest);
    var e := EncodeDatum(k, items[i]).value;
    var d := DecodeDatum(k, there[i], e + rest).value.0;
    assert (e + rest)[|e|..] == rest;
    out := PackedRoundTrip(k, items, i + 1, n, there[i := d]);
  }

  /** The array of field `i` in progress: its first `k` elements have been read. */
  predicate InArray(fields: seq<Field>, i: nat, p: Progress, k: nat)
    requires Shape(fields, p) && i < |fields|
  {
    var f, s := fields[i], p.slots[Place(fields, i)];
    && f.rule.Repeated?
    && s.Many?
    && |s.items| == f.rule.arraySize
    && Continues(fields, i, p)
    && k == if f.rule.counted then s.count else StartSize(fields, i, p)
  }

  /** The member after `k` elements. */
  function ManyOf(f: Field, there: Slot, items: seq<Datum>, k: nat): Slot
    requires f.rule.Repeated? && there.Many?
  {
    Many(if f.rule.counted then k else there.count, items)
  }

  function SizeOf(f: Field, p: Progress, k: nat): nat
    requires f.rule.Repeated?
  {
    if f.rule.counted then p.fixedSize else k
  }

  /** One element of an array that is not packed. */
  lemma ElementField(f: Field, d: Datum, s: Slot, k: nat, size: nat, rest: Bytes) returns (items: seq<Datum>)
    requires WellFormedField(f) && f.rule.Repeated? && !Packable(f.kind) && ValidDatum(f.kind, d)
    requires s.Many? && |s.items| == f.rule.arraySize && k < |s.items|
    requires k == if f.rule.counted then s.count else size
    requires EncodeDatum(f.kind, d).Some? && |EncodeDatum(f.kind, d).value| < TWO_32
    ensures |items| == |s.items| && Copied(f.kind, d, items[k])
    ensures forall j :: 0 <= j < |items| && j != k ==> items[j] == s.items[j]
    ensures
      var x := EncodeDatum(f.kind, d).value;
      DecodeField(f, WireType(f.kind), x + rest, s, size) ==
      Some((ManyOf(f, s, items, k + 1), if f.rule.counted then size else k + 1, |x|))
    decreases f, 1
  {
    hide DecodeDatum, EncodeDatum, ValidDatum, Copied, WellFormedField;
    var there := Start(f.kind, s.items[k]);
    ElementRoundTrip(f, d, there, rest);
    items := s.items[k := DecodeDatum(f.kind, there, EncodeDatum(f.kind, d).value + rest).value.0];
  }

  lemma ElementStep(fields: seq<Field>, i: nat, p: Progress, d: Datum, k: nat, rest: Bytes) returns (out: seq<Datum>)
    requires WellFormed(fields) && i < |fields| && Shape(fields, p) && InArray(fields, i, p, k)
    requires !Packable(fields[i].kind) && k < fields[i].rule.arraySize && ValidDatum(fields[i].kind, d)
    requires EncodeTagged(fields[i], d).Some? && |EncodeTagged(fields[i], d).value| < TWO_32
    ensures
      var f, s := fields[i], p.slots[Place(fields, i)];
      && |out| == |s.items| && Copied(f.kind, d, out[k])
      && (forall j :: 0 <= j < |out| && j != k ==> out[j] == s.items[j])
      && Loop(fields, EncodeTagged(f, d).value + rest, p) ==
         Loop(fields, rest, After(fields, i, p, ManyOf(f, s, out, k + 1), SizeOf(f, p, k + 1)))
    decreases fields, 2
  {
    hide EncodeDatum, DecodeField, Copied, ValidDatum, Loop, TagBytes, After, WellFormedField;
    var f, s := fields[i], p.slots[Place(fields, i)];
    out := ElementField(f, d, s, k, StartSize(fields, i, p), rest);
    LoopField(fields, i, WireType(f.kind), EncodeDatum(f.kind, d).value, rest, p, ManyOf(f, s, out, k + 1),
              SizeOf(f, p, k + 1));
  }

  lemma AfterTwice(fields: seq<Field>, i: nat, p: Progress, s: Slot, size: nat, s': Slot, size': nat)
    requires Shape(fields, p) && i < |fields| && fields[i].rule.Repeated?
    ensures After(fields, i, After(fields, i, p, s, size), s', size') == After(fields, i, p, s', size')
  {
    var l := Place(fields, i);
    assert p.slots[l := s][l := s'] == p.slots[l := s'];
  }

  lemma StillInArray(fields: seq<Field>, i: nat, p: Progress, items: seq<Datum>, k: nat)
    requires Shape(fields, p) && i < |fields| && InArray(fields, i, p, k)
    requires |items| == fields[i].rule.arraySize
    ensures
      var f, s := fields[i], p.slots[Place(fields, i)];
      var q := After(fields, i, p, ManyOf(f, s, items, k + 1), SizeOf(f, p, k + 1));
      InArray(fields, i, q, k + 1)
  {
  }

  lemma {:induction false} UnpackedRoundTrip(fields: seq<Field>, i: nat, p: Progress, items: seq<Datum>, k: nat, n: nat,
                                             rest: Bytes)
    returns (out: seq<Datum>)
    requires WellFormed(fields) && i < |fields| && Shape(fields, p) && InArray(fields, i, p, k)
    requires !Packable(fields[i].kind)
    requires k < n <= |items| && n <= fields[i].rule.arraySize
    requires forall j :: k <= j < n ==> ValidDatum(fields[i].kind, items[j])
    requires EncodeUnpacked(fields[i], items, k, n).Some? && |EncodeUnpacked(fields[i], items, k, n).value| < TWO_32
    ensures
      var f, s := fields[i], p.slots[Place(fields, i)];
      && Loop(fields, EncodeUnpacked(f, items, k, n).value + rest, p) ==
         Loop(fields, rest, After(fields, i, p, ManyOf(f, s, out, n), SizeOf(f, p, n)))
      && |out| == |s.items|
      && forall j :: 0 <= j < k ==> out[j] == s.items[j]
    ensures forall j :: k <= j < n ==> Copied(fields[i].kind, items[j], out[j])
    decreases fields, 3, n - k
  {
    hide EncodeTagged, Copied, ValidDatum, Loop, After, WellFormedField, Continues;
    var f, s := fields[i], p.slots[Place(fields, i)];
    var x := EncodeTagged(f, items[k]).value;
    var e := EncodeUnpacked(f, items, k + 1, n).value;
    assert (x + e) + rest == x + (e + rest);
    var one := ElementStep(fields, i, p, items[k], k, e + rest);
    if k + 1 == n {
      out := one;
      assert e + rest == rest;
    } else {
      StillInArray(fields, i, p, one, k);
      var t := ManyOf(f, s, one, k + 1);
      var q := After(fields, i, p, t, SizeOf(f, p, k + 1));
      AfterKeeps(fields, i, p, t, SizeOf(f, p, k + 1));
      out := UnpackedRoundTrip(fields, i, q, items, k + 1, n, rest);
      AfterTwice(fields, i, p, t, SizeOf(f, p, k + 1), ManyOf(f, s, out, n), SizeOf(f, p, n));
    }
  }

  lemma AfterKeeps(fields: seq<Field>, i: nat, p: Progress, s: Slot, size: nat)
    requires Shape(fields, p) && i < |fields|
    ensures After(fields, i, p, s, size).slots[Place(fields, i)] == s
    ensures After(fields, i, p, s, size).fixedSize == size
  {
  }

  // ---------- one field ----------

  /** A field that is present once, in memory. */
  predicate Single(f: Field, s: Slot, v: Datum) {
    match f.rule
    case Required => s == Plain(v)
    case Optional(hasFlag) => if hasFlag then s == Maybe(true, v) else s == Plain(v)
    case Oneof(_) => s == Union(f.tag, v)
    case Repeated(_, _) => false
  }

  lemma SingleRoundTrip(f: Field, s: Slot, v: Datum, before: Slot, size: nat, rest: Bytes) returns (after: Slot)
    requires WellFormedField(f) && ValidSlot(f, s) && Single(f, s, v)
    requires f.rule == Optional(false) ==> !IsDefault(f, s)
    requires before == if f.rule.Oneof? then Union(0, Int(0)) else DefaultSlot(f)
    requires EncodeDatum(f.kind, v).Some? && |EncodeDatum(f.kind, v).value| < TWO_32
    ensures CopiedSlot(f, s, after)
    ensures
      var x := EncodeDatum(f.kind, v).value;
      DecodeField(f, WireType(f.kind), x + rest, before, size) == Some((after, size, |x|))
    decreases f, 1
  {
    hide DecodeDatum, EncodeDatum, ValidDatum, Copied, WellFormedField;
    var there := if f.rule.Oneof? then Start(f.kind, before.v) else before.v;
    ElementRoundTrip(f, v, there, rest);
    var d := DecodeDatum(f.kind, there, EncodeDatum(f.kind, v).value + rest).value.0;
    after := match f.rule
      case Required => Plain(d)
      case Optional(hasFlag) => if hasFlag then Maybe(true, d) else Plain(d)
      case Oneof(_) => Union(f.tag, d)
      case Repeated(_, _) => Plain(d);
  }

  lemma SingleStep(fields: seq<Field>, m: seq<Slot>, p: Progress, i: nat, v: Datum, rest: Bytes) returns (q: Progress)
    requires WellFormed(fields) && ValidMessage(fields, m) && i < |fields| && Reached(fields, m, p, i)
    requires Single(fields[i], m[Place(fields, i)], v)
    requires fields[i].rule == Optional(false) ==> !IsDefault(fields[i], m[Place(fields, i)])
    requires EncodeTagged(fields[i], v).Some? && |EncodeTagged(fields[i], v).value| < TWO_32
    ensures Shape(fields, p) && Reached(fields, m, q, i + 1)
    ensures Loop(fields, EncodeTagged(fields[i], v).value + rest, p) == Loop(fields, rest, q)
    decreases fields, 2
  {
    hide EncodeDatum, DecodeField, CopiedSlot, ValidSlot, DefaultSlot, Loop, TagBytes;
    var f, l := fields[i], Place(fields, i);
    assert SlotAt(fields, m, p.slots, i, i);
    if f.rule.Oneof? {
      NotChosenYet(fields, m, i);
    }
    var s := SingleRoundTrip(f, m[l], v, p.slots[l], p.fixedSize, rest);
    LoopField(fields, i, WireType(f.kind), EncodeDatum(f.kind, v).value, rest, p, s, p.fixedSize);
    PresentReached(fields, m, p, i, s, p.fixedSize);
    q := After(fields, i, p, s, p.fixedSize);
  }

  lemma NotChosenYet(fields: seq<Field>, m: seq<Slot>, i: nat)
    requires DistinctTags(fields) && i < |fields| && |m| == Members(fields, |fields|)
    requires Picks(m[Place(fields, i)], fields[i])
    ensures !Chosen(fields, m, i, Place(fields, i))
  {
  }

  lemma ArrayStep(fields: seq<Field>, m: seq<Slot>, p: Progress, i: nat, rest: Bytes) returns (q: Progress)
    requires WellFormed(fields) && ValidMessage(fields, m) && i < |fields| && Reached(fields, m, p, i)
    requires fields[i].rule.Repeated?
    requires
      var e := EncodeField(fields[i], m[Place(fields, i)]);
      e.Some? && |e.value| < TWO_32
    ensures Shape(fields, p) && Reached(fields, m, q, i + 1)
    ensures Loop(fields, EncodeField(fields[i], m[Place(fields, i)]).value + rest, p) == Loop(fields, rest, q)
    decreases fields, 4
  {
    hide Loop, After, EncodeDatum, ValidDatum, Copied, EncodeUnpacked, EncodePacked, DecodePacked, WellFormedField;
    var f, a := fields[i], m[Place(fields, i)];
    var s := p.slots[Place(fields, i)];
    assert SlotAt(fields, m, p.slots, i, i);
    var n := Elements(f, a);
    if n == 0 {
      AbsentReached(fields, m, p, i);
      assert [] + rest == rest;
      return p;
    }
    var out;
    if Packable(f.kind) {
      out := PackedRoundTrip(f.kind, a.items, 0, n, s.items);
      var e := EncodePacked(f.kind, a.items, 0, n).value;
      PrefixedReads(e, rest);
      LoopField(fields, i, WT_STRING, Prefixed(e), rest, p, ManyOf(f, s, out, n), SizeOf(f, p, n));
    } else {
      out := UnpackedRoundTrip(fields, i, p, a.items, 0, n, rest);
    }
    PresentReached(fields, m, p, i, ManyOf(f, s, out, n), SizeOf(f, p, n));
    q := After(fields, i, p, ManyOf(f, s, out, n), SizeOf(f, p, n));
  }

  lemma FieldStep(fields: seq<Field>, m: seq<Slot>, p: Progress, i: nat, rest: Bytes) returns (q: Progress)
    requires WellFormed(fields) && ValidMessage(fields, m) && i < |fields| && Reached(fields, m, p, i)
    requires
      var e := EncodeField(fields[i], m[Place(fields, i)]);
      e.Some? && |e.value| < TWO_32
    ensures Shape(fields, p) && Reached(fields, m, q, i + 1)
    ensures Loop(fields, EncodeField(fields[i], m[Place(fields, i)]).value + rest, p) == Loop(fields, rest, q)
    decreases fields, 5
  {
    var f, s := fields[i], m[Place(fields, i)];
    if f.rule.Repeated? {
      q := ArrayStep(fields, m, p, i, rest);
    } else if match f.rule
              case Optional(hasFlag) => (if hasFlag then !s.has else IsDefault(f, s))
              case Oneof(_) => s.which != f.tag
              case _ => false
    {
      assert SlotAt(fields, m, p.slots, i, i);
      if f.rule == Optional(false) {
        DefaultCopied(f, s);
      }
      AbsentReached(fields, m, p, i);
      assert [] + rest == rest;
      q := p;
    } else {
      q := SingleStep(fields, m, p, i, s.v, rest);
    }
  }

  // ---------- the whole message ----------

  lemma {:induction false} FieldsRoundTrip(fields: seq<Field>, m: seq<Slot>, p: Progress, i: nat)
    returns (q: Progress)
    requires WellFormed(fields) && ValidMessage(fields, m) && i <= |fields| && Reached(fields, m, p, i)
    requires EncodeFields(fields, m, i).Some? && |EncodeFields(fields, m, i).value| < TWO_32
    ensures Shape(fields, p) && Reached(fields, m, q, |fields|)
    ensures Loop(fields, EncodeFields(fields, m, i).value, p) == Some(q)
    decreases fields, 6, |fields| - i
  {
    if i == |fields| {
      return p;
    }
    var rest := EncodeFields(fields, m, i + 1).value;
    var next := FieldStep(fields, m, p, i, rest);
    q := FieldsRoundTrip(fields, m, next, i + 1);
  }

  lemma DefaultsReach(fields: seq<Field>, m: seq<Slot>)
    requires ValidMessage(fields, m)
    ensures Reached(fields, m, Progress(Defaults(fields, |fields|), None, 0, {}), 0)
  {
    var slots := Defaults(fields, |fields|);
    forall j | 0 <= j < |fields| ensures SlotAt(fields, m, slots, 0, j) {
      DefaultAt(fields, |fields|, j);
    }
  }

  lemma EndCopied(fields: seq<Field>, m: seq<Slot>, p: Progress, i: nat)
    requires WellFormed(fields) && ValidMessage(fields, m) && Reached(fields, m, p, |fields|) && i < |fields|
    ensures CopiedSlot(fields[i], m[Place(fields, i)], p.slots[Place(fields, i)])
  {
    hide Place, Copied, ValidDatum, DefaultSlot, Shape;
    var f, l := fields[i], Place(fields, i);
    assert ValidSlot(f, m[l]) && SlotAt(fields, m, p.slots, |fields|, i);
    if f.rule.Oneof? && m[l].which != f.tag {
      if m[l].which != 0 {
        var j :| 0 <= j < |fields| && Place(fields, j) == l && Picks(m[l], fields[j]);
        if i < j {
          SharedPlace(fields, i, j);
        } else {
          SharedPlace(fields, j, i);
        }
        assert SlotAt(fields, m, p.slots, |fields|, j);
      }
    }
  }

  /** Decoding succeeds and copies what was encoded. */
  lemma MessageCopied(fields: seq<Field>, m: seq<Slot>)
    requires WellFormed(fields) && ValidMessage(fields, m)
    requires Encode(fields, m).Some? ==> |Encode(fields, m).value| < TWO_32
    ensures Encode(fields, m).Some?
    ensures
      var r := Decode(fields, Encode(fields, m).value);
      r.Some? && CopiedMessage(fields, m, r.value)
    decreases fields, 7
  {
    FieldsEncode(fields, m, 0);
    DefaultsReach(fields, m);
    var q := FieldsRoundTrip(fields, m, Progress(Defaults(fields, |fields|), None, 0, {}), 0);
    forall i | 0 <= i < |fields|
      ensures
        CopiedSlot(fields[i], m[Place(fields, i)], q.slots[Place(fields, i)])
    {
      EndCopied(fields, m, q, i);
    }
  }

  // ---------- when the copy is the message ----------

  /** Every field that the encoder leaves out as default has what the decoder's default stands for. */
  predicate Kept(k: Kind, d: Datum)
    decreases k, 0
  {
    k.Submessage? ==> d.Struct? && KeptMessage(k.fields, d.slots)
  }

  predicate KeptSlot(f: Field, s: Slot)
    decreases f
  {
    match f.rule
    case Required => s.Plain? && Kept(f.kind, s.v)
    case Optional(hasFlag) =>
      if hasFlag then s.Maybe? && (s.has ==> Kept(f.kind, s.v))
      else s.Plain? && Kept(f.kind, s.v)
           && (!f.kind.Submessage? && IsDefault(f, s) ==> Restored(f.kind, s.v, DefaultDatum(f)))
    case Repeated(n, _) =>
      s.Many? && |s.items| == n && forall k :: 0 <= k < Elements(f, s) && k < n ==> Kept(f.kind, s.items[k])
    case Oneof(_) => s.Union? && (s.which == f.tag ==> Kept(f.kind, s.v))
  }

  predicate KeptMessage(fields: seq<Field>, m: seq<Slot>)
    decreases fields
  {
    && |m| == Members(fields, |fields|)
    && forall i :: 0 <= i < |fields| ==> Place(fields, i) < |m| && KeptSlot(fields[i], m[Place(fields, i)])
  }

  /** A field left out because it is at its default is copied by the decoder's default. */
  lemma {:induction false} DefaultCopied(f: Field, s: Slot)
    requires WellFormedField(f) && ValidSlot(f, s) && IsDefault(f, s)
    ensures CopiedSlot(f, s, DefaultSlot(f))
  {
  }

  /** A message with every field at its default is copied by the default message. */
  lemma {:induction false} DefaultsCopied(fields: seq<Field>, m: seq<Slot>)
    requires WellFormed(fields) && ValidMessage(fields, m) && AllDefault(fields, m, 0)
    ensures CopiedMessage(fields, m, Defaults(fields, |fields|))
  {
    hide CopiedSlot, ValidSlot, IsDefault, WellFormedField, DefaultSlot;
    var d := Defaults(fields, |fields|);
    forall i | 0 <= i < |fields| ensures CopiedSlot(fields[i], m[Place(fields, i)], d[Place(fields, i)]) {
      DefaultAt(fields, |fields|, i);
      AllDefaultAt(fields, m, 0, i);
      DefaultCopied(fields[i], m[Place(fields, i)]);
    }
  }

  lemma {:induction false} AllDefaultAt(fields: seq<Field>, slots: seq<Slot>, n: nat, i: nat)
    requires n <= i < |fields| && AllDefault(fields, slots, n)
    ensures Place(fields, i) < |slots| && IsDefault(fields[i], slots[Place(fields, i)])
    decreases |fields| - n
  {
    if n < i {
      AllDefaultAt(fields, slots, n + 1, i);
    }
  }

  /** A copy is as good as the original exactly if the original is kept. */
  lemma {:induction false} CopyRestores(k: Kind, a: Datum, b: Datum)
    requires (k.Submessage? ==> WellFormed(k.fields)) && ValidDatum(k, a) && Copied(k, a, b)
    ensures Restored(k, a, b) <==> Kept(k, a)
    decreases k, 0
  {
    if k.Submessage? {
      CopyRestoresMessage(k.fields, a.slots, b.slots);
    }
  }

  lemma {:induction false} CopyRestoresSlot(f: Field, a: Slot, b: Slot)
    requires WellFormedField(f) && ValidSlot(f, a) && CopiedSlot(f, a, b)
    ensures RestoredSlot(f, a, b) <==> KeptSlot(f, a)
    decreases f, 1
  {
    hide Kept, Copied, Restored, ValidDatum, WellFormed, IsZero;
    if f.rule.Repeated? {
      forall k | 0 <= k < Elements(f, a) ensures Restored(f.kind, a.items[k], b.items[k]) <==> Kept(f.kind, a.items[k]) {
        CopyRestores(f.kind, a.items[k], b.items[k]);
      }
    } else if f.rule == Optional(false) && IsDefault(f, a) {
      LeftOutRestores(f, a);
    } else if f.rule == Required || f.rule == Optional(false) || (f.rule.Optional? && a.has)
              || (f.rule.Oneof? && a.which == f.tag) {
      CopyRestores(f.kind, a.v, b.v);
    }
  }

  lemma {:induction false} LeftOutRestores(f: Field, a: Slot)
    requires WellFormedField(f) && ValidSlot(f, a) && f.rule == Optional(false) && IsDefault(f, a)
    ensures Restored(f.kind, a.v, DefaultDatum(f)) <==> KeptSlot(f, a)
    decreases f, 0
  {
    hide Restored, KeptMessage, Defaults, CopiedMessage, AllDefault, ValidMessage;
    if f.kind.Submessage? {
      DefaultsCopied(f.kind.fields, a.v.slots);
      CopyRestores(f.kind, a.v, DefaultDatum(f));
    }
  }

  lemma {:induction false} CopyRestoresMessage(fields: seq<Field>, a: seq<Slot>, b: seq<Slot>)
    requires WellFormed(fields) && ValidMessage(fields, a) && CopiedMessage(fields, a, b)
    ensures RestoredMessage(fields, a, b) <==> KeptMessage(fields, a)
    decreases fields, 2
  {
    hide RestoredSlot, CopiedSlot, KeptSlot, ValidSlot, WellFormedField;
    forall i | 0 <= i < |fields|
      ensures RestoredSlot(fields[i], a[Place(fields, i)], b[Place(fields, i)]) <==> KeptSlot(fields[i], a[Place(fields, i)])
    {
      CopyRestoresSlot(fields[i], a[Place(fields, i)], b[Place(fields, i)]);
    }
  }

  /** Main theorem: for every descriptor and every valid message whose encoding is below 4 GB, decoding succeeds, and
      restores presence, counts and present values exactly if every field without has_ member that is left out as zero
      has what its default stands for. */
  lemma MessageRoundTrip(fields: seq<Field>, m: seq<Slot>)
    requires WellFormed(fields) && ValidMessage(fields, m)
    requires Encode(fields, m).Some? ==> |Encode(fields, m).value| < TWO_32
    ensures Encode(fields, m).Some?
    ensures
      var r := Decode(fields, Encode(fields, m).value);
      r.Some? && (RestoredMessage(fields, m, r.value) <==> KeptMessage(fields, m))
  {
    MessageCopied(fields, m);
    CopyRestoresMessage(fields, m, Decode(fields, Encode(fields, m).value).value);
  }

  // ---------- encoding again ----------

  /** The restored message has the same encoding. */
  lemma {:induction false} DatumAlike(k: Kind, a: Datum, b: Datum)
    requires ValidDatum(k, a) && Restored(k, a, b)
    ensures EncodeDatum(k, a) == EncodeDatum(k, b) && IsZero(k, a) == IsZero(k, b)
    decreases k, 0
  {
    if k.Submessage? {
      FieldsAlike(k.fields, a.slots, b.slots, 0);
    } else if k.CString? {
      assert StrLen(a.bytes) == |a.bytes[..StrLen(a.bytes)]| == |b.bytes[..StrLen(b.bytes)]| == StrLen(b.bytes);
    }
  }

  lemma {:induction false} PackedAlike(k: Kind, a: seq<Datum>, b: seq<Datum>, i: nat, n: nat)
    requires i <= n <= |a| && n <= |b|
    requires forall j :: i <= j < n ==> ValidDatum(k, a[j]) && Restored(k, a[j], b[j])
    ensures EncodePacked(k, a, i, n) == EncodePacked(k, b, i, n)
    decreases k, 1, n - i
  {
    hide ValidDatum, EncodeDatum, Restored;
    if i < n {
      DatumAlike(k, a[i], b[i]);
      PackedAlike(k, a, b, i + 1, n);
    }
  }

  lemma {:induction false} UnpackedAlike(f: Field, a: seq<Datum>, b: seq<Datum>, i: nat, n: nat)
    requires i <= n <= |a| && n <= |b|
    requires forall j :: i <= j < n ==> ValidDatum(f.kind, a[j]) && Restored(f.kind, a[j], b[j])
    ensures EncodeUnpacked(f, a, i, n) == EncodeUnpacked(f, b, i, n)
    decreases f, 0, n - i
  {
    hide ValidDatum, EncodeDatum, Restored;
    if i < n {
      DatumAlike(f.kind, a[i], b[i]);
      UnpackedAlike(f, a, b, i + 1, n);
    }
  }

  lemma {:induction false} FieldAlike(f: Field, a: Slot, b: Slot)
    requires ValidSlot(f, a) && RestoredSlot(f, a, b)
    ensures EncodeField(f, a) == EncodeField(f, b) && IsDefault(f, a) == IsDefault(f, b)
    decreases f, 1
  {
    hide ValidDatum, EncodeDatum, Restored, EncodePacked, EncodeUnpacked, IsZero;
    if f.rule.Repeated? {
      var n := Elements(f, a);
      PackedAlike(f.kind, a.items, b.items, 0, n);
      UnpackedAlike(f, a.items, b.items, 0, n);
    } else if f.rule == Required || f.rule == Optional(false) || (f.rule.Optional? && a.has)
              || (f.rule.Oneof? && a.which == f.tag) {
      DatumAlike(f.kind, a.v, b.v);
    }
  }

  lemma {:induction false} FieldsAlike(fields: seq<Field>, a: seq<Slot>, b: seq<Slot>, i: nat)
    requires i <= |fields| && ValidMessage(fields, a) && RestoredMessage(fields, a, b)
    ensures EncodeFields(fields, a, i) == EncodeFields(fields, b, i)
    ensures AllDefault(fields, a, i) == AllDefault(fields, b, i)
    decreases fields, 0, |fields| - i
  {
    hide ValidSlot, RestoredSlot, EncodeField, IsDefault;
    if i < |fields| {
      FieldAlike(fields[i], a[Place(fields, i)], b[Place(fields, i)]);
      FieldsAlike(fields, a, b, i + 1);
    }
  }

  /** Encoding, decoding and encoding again gives the same bytes. */
  lemma EncodesAlike(fields: seq<Field>, m: seq<Slot>)
    requires WellFormed(fields) && ValidMessage(fields, m) && KeptMessage(fields, m)
    requires Encode(fields, m).Some? ==> |Encode(fields, m).value| < TWO_32
    ensures
      var e := Encode(fields, m);
      e.Some? && Decode(fields, e.value).Some? && Encode(fields, Decode(fields, e.value).value) == e
  {
    MessageRoundTrip(fields, m);
    FieldsAlike(fields, m, Decode(fields, Encode(fields, m).value).value, 0);
  }
}
