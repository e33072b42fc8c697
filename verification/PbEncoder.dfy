/** The encoder's procedures (nanopb/pb_encode.c, lines 74-121, 131-541, 599-902): each writes exactly the bytes that
    module `PbEncode` gives, or fails because there are none or because the stream is full. */
module PbEncoder {
  import opened Coding
  import opened DbFormat
  import opened PbFields
  import opened PbEncode

  /** `pb_ostream_t`. A stream without a callback only counts. */
  class OStream {
    const sizing: bool
    const maxSize: nat
    var bytesWritten: nat
    /** What the buffer holds up to the write position. */
    var buffer: Bytes

    ghost predicate Valid()
      reads this
    {
      sizing || bytesWritten <= maxSize
    }

    constructor Sizing()
      ensures Valid() && sizing && bytesWritten == 0 && buffer == []
    {
      sizing := true;
      maxSize := 0;
      bytesWritten := 0;
      buffer := [];
    }

    constructor (maxSize: nat, buffer: Bytes)
      ensures Valid() && !sizing && this.maxSize == maxSize && bytesWritten == 0 && this.buffer == buffer
    {
      sizing := false;
      this.maxSize := maxSize;
      bytesWritten := 0;
      this.buffer := buffer;
    }

    predicate Fits(written: nat, more: nat) {
      sizing || written + more <= maxSize
    }

    /** Since the start of the method, `e` was written if `ok`; it was not when there is no `e` or no room for it. */
    twostate predicate Wrote(new e: Option<Bytes>, ok: bool)
      reads this
    {
      && Valid()
      && (ok <==> e.Some? && Fits(old(bytesWritten), |e.value|))
      && old(buffer) <= buffer
      && (ok ==> Holds(old(bytesWritten), old(buffer), e.value))
    }

    /** `e` follows what was there. */
    predicate Holds(written: nat, before: Bytes, e: Bytes)
      reads this
    {
      && bytesWritten == written + |e|
      && buffer == if sizing then before else before + e
    }

    method Write(b: Bytes) returns (ok: bool)
      requires Valid()
      modifies this
      ensures Wrote(Some(b), ok)
    {
      if |b| > 0 && !sizing {
        if bytesWritten + |b| > maxSize {
          return false;
        }
        buffer := buffer + b;
      }
      bytesWritten := bytesWritten + |b|;
      return true;
    }

    /** `pb_write` without data, when only counting. */
    method Count(n: nat)
      requires Valid() && sizing
      modifies this
      ensures Valid() && buffer == old(buffer) && bytesWritten == old(bytesWritten) + n
    {
      bytesWritten := bytesWritten + n;
    }
  }

  // ---------- integers ----------

  method EncodeVarint(stream: OStream, value: Word64) returns (ok: bool)
    requires stream.Valid()
    modifies stream
    ensures stream.Wrote(Some(Varint(value)), ok)
  {
    if value <= 0x7F {
      ok := stream.Write([value]);
      return;
    }
    var bytes := new Byte[10];
    var v: nat, i := value, 0;
    Powers();
    while v > 0
      invariant i <= 10 && v < Power128(10 - i)
      invariant v == 0 ==> i > 0
      invariant Written(value, bytes[..i], v)
      invariant fresh(bytes)
      invariant stream.Valid() && stream.bytesWritten == old(stream.bytesWritten) && stream.buffer == old(stream.buffer)
    {
      hide Varint;
      assert Power128(10 - i) == 128 * Power128(9 - i);
      ghost var before := bytes[..i];
      bytes[i] := v % 128 + 128;
      assert bytes[..i] == before && bytes[..i + 1] == before + [bytes[i]];
      WriteNext(value, before, v);
      v := v / 128;
      i := i + 1;
    }
    ghost var all := bytes[..i];
    bytes[i - 1] := bytes[i - 1] - 128;
    assert bytes[..i] == all[..i - 1] + LowBits(all[i - 1]);
    ok := stream.Write(bytes[..i]);
  }

  /** Every byte so far has its top bit set; with that of the last cleared at the end, they begin the varint. */
  ghost predicate Written(value: nat, so: Bytes, v: nat) {
    if v > 0 then so + Varint(v) == Varint(value)
    else so != [] && so[|so| - 1] >= 128 && so[..|so| - 1] + LowBits(so[|so| - 1]) == Varint(value)
  }

  lemma WriteNext(value: nat, so: Bytes, v: nat)
    requires v > 0 && Written(value, so, v)
    ensures Written(value, so + [v % 128 + 128], v / 128)
  {
    var more := so + [v % 128 + 128];
    if v >= 128 {
      assert so + ([v % 128 + 128] + Varint(v / 128)) == more + Varint(v / 128);
    } else {
      assert more[..|more| - 1] == so && LowBits(v + 128) == [v] == Varint(v);
    }
  }

  ghost function LowBits(b: Byte): Bytes
    requires b >= 128
  {
    var x: int := b;
    [x - 128]
  }

  /** Shifts, and complements what was negative. */
  method EncodeSVarint(stream: OStream, value: int) returns (ok: bool)
    requires -0x8000_0000_0000_0000 <= value < 0x8000_0000_0000_0000
    requires stream.Valid()
    modifies stream
    ensures stream.Wrote(Some(Varint(ZigZagged(value))), ok)
  {
    hide Varint, ZigZagged;
    var shifted := (value + if value < 0 then TWO_64 else 0) * 2 % TWO_64;
    ShiftedIs(value);
    if value < 0 {
      ok := EncodeVarint(stream, TWO_64 - 1 - shifted);
    } else {
      ok := EncodeVarint(stream, shifted);
    }
  }

  lemma ShiftedIs(value: int)
    requires -0x8000_0000_0000_0000 <= value < 0x8000_0000_0000_0000
    ensures var shifted := (value + if value < 0 then TWO_64 else 0) * 2 % TWO_64;
      ZigZagged(value) == if value < 0 then TWO_64 - 1 - shifted else shifted
  {
    if value < 0 {
      assert (value + TWO_64) * 2 == TWO_64 + (TWO_64 + 2 * value);
    }
  }

  method EncodeTag(stream: OStream, wire: nat, number: nat) returns (ok: bool)
    requires wire < 8 && number <= PB_SIZE_MAX
    requires stream.Valid()
    modifies stream
    ensures stream.Wrote(Some(TagBytes(number, wire)), ok)
  {
    ok := EncodeVarint(stream, number * 8 + wire);
  }

  // ---------- values ----------

  method EncodeString(stream: OStream, b: Bytes) returns (ok: bool)
    requires stream.Valid()
    modifies stream
    ensures stream.Wrote(Some(Prefixed(b)), ok)
  {
    ok := EncodeVarint(stream, |b| % TWO_64);
    if !ok {
      return;
    }
    assert stream.buffer == if stream.sizing then old(stream.buffer) else old(stream.buffer) + Varint(|b| % TWO_64);
    assert old(stream.buffer) + Varint(|b| % TWO_64) + b == old(stream.buffer) + Prefixed(b);
    ok := stream.Write(b);
  }

  method StringLength(b: Bytes) returns (n: nat)
    ensures n == StrLen(b)
  {
    n := 0;
    while n < |b| && b[n] != 0
      invariant n <= |b| && StrLen(b) == n + StrLen(b[n..])
    {
      assert b[n..][1..] == b[n + 1..];
      n := n + 1;
    }
  }

  /** Two passes: one counts, and the other must write just as much. */
  method EncodeSubmessage(stream: OStream, fields: seq<Field>, slots: seq<Slot>) returns (ok: bool)
    requires stream.Valid() && Shaped(fields, slots)
    modifies stream
    ensures stream.Wrote(EncodeDatum(Submessage(fields), Struct(slots)), ok)
    decreases fields, 1
  {
    var counter := new OStream.Sizing();
    ok := EncodeMessage(counter, fields, slots);
    if !ok {
      return;
    }
    var size := counter.bytesWritten;
    ghost var e := EncodeFields(fields, slots, 0).value;
    ghost var length := Varint(size % TWO_64);
    assert old(stream.buffer) + length + e == old(stream.buffer) + Prefixed(e);
    ok := EncodeVarint(stream, size % TWO_64);
    if !ok {
      return;
    }
    if stream.sizing {
      stream.Count(size);
      return;
    }
    if stream.bytesWritten + size > stream.maxSize {
      return false;
    }
    var substream := new OStream(size, stream.buffer);
    ok := EncodeMessage(substream, fields, slots);
    stream.bytesWritten := stream.bytesWritten + substream.bytesWritten;
    stream.buffer := substream.buffer;
    if substream.bytesWritten != size {
      return false;
    }
  }

  /** `pb_enc_varint`, `pb_enc_uvarint`, `pb_enc_svarint`. */
  method EncodeInteger(stream: OStream, k: Kind, d: Datum) returns (ok: bool)
    requires stream.Valid() && DatumShaped(k, d) && (k.Signed? || k.Unsigned? || k.ZigZag?)
    modifies stream
    ensures stream.Wrote(EncodeDatum(k, d), ok)
    decreases k, 0
  {
    hide Varint;
    if !IntegerSize(k.size) {
      return false;
    }
    if k.ZigZag? {
      ok := EncodeSVarint(stream, d.n);
    } else {
      ok := EncodeVarint(stream, d.n % TWO_64);
    }
  }

  /** The table of field encoders. */
  method EncodeValue(stream: OStream, k: Kind, d: Datum) returns (ok: bool)
    requires stream.Valid() && DatumShaped(k, d)
    modifies stream
    ensures stream.Wrote(EncodeDatum(k, d), ok)
    decreases k, 1
  {
    hide Varint, EncodeFixed32, EncodeFixed64, Prefixed, EncodeFields, Shaped;
    match k
    case Boolean => ok := EncodeVarint(stream, if d.n != 0 then 1 else 0);
    case Fixed32 => ok := stream.Write(EncodeFixed32(d.n % TWO_32));
    case Fixed64 => ok := stream.Write(EncodeFixed64(d.n % TWO_64));
    case ByteArray(size) =>
      if |d.bytes| + BYTES_HEADER > size {
        return false;
      }
      ok := EncodeString(stream, d.bytes);
    case CString(_) =>
      var n := StringLength(d.bytes);
      ok := EncodeString(stream, d.bytes[..n]);
    case FixedBytes(_) => ok := EncodeString(stream, d.bytes);
    case Submessage(fields) => ok := EncodeSubmessage(stream, fields, d.slots);
    case _ => ok := EncodeInteger(stream, k, d);
  }

  method EncodeOne(stream: OStream, f: Field, d: Datum) returns (ok: bool)
    requires stream.Valid() && f.tag <= PB_SIZE_MAX && DatumShaped(f.kind, d)
    modifies stream
    ensures stream.Wrote(EncodeTagged(f, d), ok)
    decreases f, 0
  {
    ghost var t := TagBytes(f.tag, WireType(f.kind));
    ok := EncodeTag(stream, WireType(f.kind), f.tag);
    if !ok {
      return;
    }
    assert EncodeDatum(f.kind, d).Some? ==>
        old(stream.buffer) + t + EncodeDatum(f.kind, d).value == old(stream.buffer) + (t + EncodeDatum(f.kind, d).value);
    ok := EncodeValue(stream, f.kind, d);
  }

  // ---------- fields ----------

  /** What is written so far and what is still to come make up the whole. */
  ghost predicate Split(whole: Option<Bytes>, done: Bytes, rest: Option<Bytes>) {
    whole == if rest.Some? then Some(done + rest.value) else None
  }

  lemma Nothing(whole: Option<Bytes>)
    ensures Split(whole, [], whole)
  {
    if whole.Some? {
      assert [] + whole.value == whole.value;
    }
  }

  lemma Next(whole: Option<Bytes>, done: Bytes, e: Option<Bytes>, rest: Option<Bytes>, before: Bytes)
    requires Split(whole, done, Append(e, rest))
    ensures e.Some? ==> Split(whole, done + e.value, rest) && before + (done + e.value) == before + done + e.value
    ensures e.None? ==> whole.None?
    ensures e.Some? && whole.Some? ==> |done| + |e.value| <= |whole.value|
  {
    if e.Some? && rest.Some? {
      assert done + (e.value + rest.value) == done + e.value + rest.value;
    }
  }

  lemma Everything(whole: Option<Bytes>, done: Bytes)
    requires Split(whole, done, Some([]))
    ensures whole == Some(done)
  {
    assert done + [] == done;
  }

  method EncodeElements(stream: OStream, f: Field, items: seq<Datum>, count: nat) returns (ok: bool)
    requires stream.Valid() && f.tag <= PB_SIZE_MAX && count <= |items|
    requires forall k :: 0 <= k < |items| ==> DatumShaped(f.kind, items[k])
    modifies stream
    ensures stream.Wrote(EncodeUnpacked(f, items, 0, count), ok)
    decreases f, 1
  {
    ghost var done: Bytes := [];
    var i := 0;
    hide Split, Append, EncodeTagged;
    Nothing(EncodeUnpacked(f, items, 0, count));
    while i < count
      invariant i <= count && stream.Valid()
      invariant Split(EncodeUnpacked(f, items, 0, count), done, EncodeUnpacked(f, items, i, count))
      invariant stream.Holds(old(stream.bytesWritten), old(stream.buffer), done)
    {
      ghost var e, rest := EncodeTagged(f, items[i]), EncodeUnpacked(f, items, i + 1, count);
      Next(EncodeUnpacked(f, items, 0, count), done, e, rest, old(stream.buffer));
      ok := EncodeOne(stream, f, items[i]);
      if !ok {
        return;
      }
      done := done + e.value;
      i := i + 1;
    }
    Everything(EncodeUnpacked(f, items, 0, count), done);
    ok := true;
  }

  method EncodePackedElements(stream: OStream, k: Kind, items: seq<Datum>, count: nat) returns (ok: bool)
    requires stream.Valid() && count <= |items|
    requires forall j :: 0 <= j < |items| ==> DatumShaped(k, items[j])
    modifies stream
    ensures stream.Wrote(EncodePacked(k, items, 0, count), ok)
    decreases k, 2
  {
    ghost var done: Bytes := [];
    var i := 0;
    hide Split, Append, EncodeDatum;
    Nothing(EncodePacked(k, items, 0, count));
    while i < count
      invariant i <= count && stream.Valid()
      invariant Split(EncodePacked(k, items, 0, count), done, EncodePacked(k, items, i, count))
      invariant stream.Holds(old(stream.bytesWritten), old(stream.buffer), done)
    {
      ghost var e, rest := EncodeDatum(k, items[i]), EncodePacked(k, items, i + 1, count);
      Next(EncodePacked(k, items, 0, count), done, e, rest, old(stream.buffer));
      ok := EncodeValue(stream, k, items[i]);
      if !ok {
        return;
      }
      done := done + e.value;
      i := i + 1;
    }
    Everything(EncodePacked(k, items, 0, count), done);
    ok := true;
  }

  lemma {:induction false} FixedSize(k: Kind, items: seq<Datum>, i: nat, n: nat)
    requires i <= n <= |items| && (k.Fixed32? || k.Fixed64?)
    requires forall j :: 0 <= j < |items| ==> DatumShaped(k, items[j])
    ensures EncodePacked(k, items, i, n).Some?
    ensures |EncodePacked(k, items, i, n).value| == (n - i) * if k.Fixed32? then 4 else 8
    decreases n - i
  {
    if i < n {
      FixedSize(k, items, i + 1, n);
    }
  }

  /** The size of a packed array: a product, or counted by a stream. */
  method PackedSize(k: Kind, items: seq<Datum>, count: nat) returns (size: Option<nat>)
    requires count <= |items| && Packable(k)
    requires forall j :: 0 <= j < |items| ==> DatumShaped(k, items[j])
    ensures
      var e := EncodePacked(k, items, 0, count);
      size == if e.Some? then Some(|e.value|) else None
    decreases k, 3
  {
    if k.Fixed32? {
      FixedSize(k, items, 0, count);
      size := Some(4 * count);
    } else if k.Fixed64? {
      FixedSize(k, items, 0, count);
      size := Some(8 * count);
    } else {
      var counter := new OStream.Sizing();
      var ok := EncodePackedElements(counter, k, items, count);
      size := if ok then Some(counter.bytesWritten) else None;
    }
  }

  method EncodeRepeated(stream: OStream, f: Field, items: seq<Datum>, count: nat) returns (ok: bool)
    requires stream.Valid() && f.rule.Repeated? && f.tag <= PB_SIZE_MAX && |items| == f.rule.arraySize
    requires forall k :: 0 <= k < |items| ==> DatumShaped(f.kind, items[k])
    modifies stream
    ensures stream.Wrote(EncodeArray(f, items, count), ok)
    decreases f, 2
  {
    if count == 0 {
      return true;
    }
    if count > f.rule.arraySize {
      return false;
    }
    if Packable(f.kind) {
      ok := EncodePackedArray(stream, f, items, count);
    } else {
      ok := EncodeElements(stream, f, items, count);
    }
  }

  lemma PrefixedAfter(before: Bytes, t: Bytes, e: Bytes)
    ensures |Prefixed(e)| == |Varint(|e| % TWO_64)| + |e|
    ensures before + t + Varint(|e| % TWO_64) + e == before + (t + Prefixed(e))
  {
    assert before + t + Varint(|e| % TWO_64) + e == before + (t + (Varint(|e| % TWO_64) + e));
  }

  method EncodePackedArray(stream: OStream, f: Field, items: seq<Datum>, count: nat) returns (ok: bool)
    requires stream.Valid() && f.tag <= PB_SIZE_MAX && count <= |items| && Packable(f.kind)
    requires forall k :: 0 <= k < |items| ==> DatumShaped(f.kind, items[k])
    modifies stream
    ensures
      var e := EncodePacked(f.kind, items, 0, count);
      stream.Wrote(if e.Some? then Some(TagBytes(f.tag, WT_STRING) + Prefixed(e.value)) else None, ok)
    decreases f, 1
  {
    hide TagBytes, Varint, Prefixed, EncodePacked;
    ok := EncodeTag(stream, WT_STRING, f.tag);
    if !ok {
      return;
    }
    var size := PackedSize(f.kind, items, count);
    if size.None? {
      return false;
    }
    ghost var e, t, n := EncodePacked(f.kind, items, 0, count).value, TagBytes(f.tag, WT_STRING), Varint(size.value % TWO_64);
    PrefixedAfter(old(stream.buffer), t, e);
    ok := EncodeVarint(stream, size.value % TWO_64);
    if !ok {
      return;
    }
    if stream.sizing {
      stream.Count(size.value);
      return;
    }
    ok := EncodePackedElements(stream, f.kind, items, count);
  }

  /** `pb_check_proto3_default_value`. */
  method CheckDefault(f: Field, s: Slot) returns (isDefault: bool)
    requires SlotShaped(f, s)
    ensures isDefault == IsDefault(f, s)
    decreases f, 1
  {
    match f.rule
    case Required => return false;
    case Repeated(_, counted) => return counted && s.count == 0;
    case Oneof(_) => return s.which == 0;
    case Optional(hasFlag) =>
      if hasFlag {
        return !s.has;
      }
      match f.kind
      case ByteArray(_) => return s.v.bytes == [];
      case CString(_) => return s.v.bytes != [] && s.v.bytes[0] == 0;
      case FixedBytes(size) => return size == 0;
      case Submessage(fields) => isDefault := CheckAllDefault(fields, s.v.slots);
      case _ => return s.v.n == 0;
  }

  method CheckAllDefault(fields: seq<Field>, slots: seq<Slot>) returns (all: bool)
    requires Shaped(fields, slots)
    ensures all == AllDefault(fields, slots, 0)
    decreases fields
  {
    if fields == [] {
      return true;
    }
    var iter := new FieldIter(fields);
    var more := true;
    ghost var i := 0;
    while more
      invariant iter.Valid() && iter.fields == fields && fresh(iter)
      invariant i <= |fields| && more == (i < |fields|) && (more ==> iter.pos == i)
      invariant AllDefault(fields, slots, 0) == AllDefault(fields, slots, i)
      decreases |fields| - i
    {
      var isDefault := CheckDefault(fields[iter.pos], slots[iter.place]);
      if !isDefault {
        return false;
      }
      more := iter.Next();
      i := i + 1;
    }
    return true;
  }

  /** `encode_basic_field`. */
  method EncodeBasicField(stream: OStream, f: Field, s: Slot) returns (ok: bool)
    requires stream.Valid() && SlotShaped(f, s)
    modifies stream
    ensures stream.Wrote(EncodeField(f, s), ok)
    decreases f, 3
  {
    match f.rule
    case Required => ok := EncodeOne(stream, f, s.v);
    case Optional(hasFlag) =>
      var has;
      if hasFlag {
        has := s.has;
      } else {
        var isDefault := CheckDefault(f, s);
        has := !isDefault;
      }
      if has {
        ok := EncodeOne(stream, f, s.v);
      } else {
        return true;
      }
    case Repeated(arraySize, counted) =>
      ok := EncodeRepeated(stream, f, s.items, if counted then s.count else arraySize);
    case Oneof(_) =>
      if s.which == f.tag {
        ok := EncodeOne(stream, f, s.v);
      } else {
        return true;
      }
  }

  /** `pb_encode`. */
  method EncodeMessage(stream: OStream, fields: seq<Field>, slots: seq<Slot>) returns (ok: bool)
    requires stream.Valid() && Shaped(fields, slots)
    modifies stream
    ensures stream.Wrote(Encode(fields, slots), ok)
    decreases fields, 0
  {
    hide Split, EncodeField, EncodeFields, SlotShaped, Shaped, RequiredBefore;
    if fields == [] {
      EmptyEncodes(fields, slots);
      return true;
    }
    var iter := new FieldIter(fields);
    var more := true;
    ghost var done: Bytes := [];
    ghost var i := 0;
    Nothing(EncodeFields(fields, slots, 0));
    while more
      invariant iter.Valid() && iter.fields == fields && fresh(iter) && stream.Valid()
      invariant i <= |fields| && more == (i < |fields|) && (more ==> iter.pos == i)
      invariant Split(EncodeFields(fields, slots, 0), done, EncodeFields(fields, slots, i))
      invariant stream.Holds(old(stream.bytesWritten), old(stream.buffer), done)
      decreases |fields| - i
    {
      FieldNext(fields, slots, done, i, old(stream.buffer));
      ghost var e := EncodeField(fields[i], slots[iter.place]);
      ok := EncodeBasicField(stream, fields[iter.pos], slots[iter.place]);
      if !ok {
        return;
      }
      done := done + e.value;
      more := iter.Next();
      i := i + 1;
    }
    EmptyEncodes(fields, slots);
    Everything(EncodeFields(fields, slots, 0), done);
    ok := true;
  }

  lemma EmptyEncodes(fields: seq<Field>, slots: seq<Slot>)
    ensures EncodeFields(fields, slots, |fields|) == Some([])
  {
  }

  lemma FieldNext(fields: seq<Field>, slots: seq<Slot>, done: Bytes, i: nat, before: Bytes)
    requires Shaped(fields, slots) && i < |fields|
    requires Split(EncodeFields(fields, slots, 0), done, EncodeFields(fields, slots, i))
    ensures Place(fields, i) < |slots| && SlotShaped(fields[i], slots[Place(fields, i)])
    ensures
      var whole, e := EncodeFields(fields, slots, 0), EncodeField(fields[i], slots[Place(fields, i)]);
      && (e.Some? ==> Split(whole, done + e.value, EncodeFields(fields, slots, i + 1)))
      && (e.Some? ==> before + (done + e.value) == before + done + e.value)
      && (e.None? ==> whole.None?)
      && (e.Some? && whole.Some? ==> |done| + |e.value| <= |whole.value|)
  {
    hide Split, Append, EncodeField, SlotShaped;
    var e, rest := EncodeField(fields[i], slots[Place(fields, i)]), EncodeFields(fields, slots, i + 1);
    assert EncodeFields(fields, slots, i) == Append(e, rest);
    Next(EncodeFields(fields, slots, 0), done, e, rest, before);
  }

  /** `pb_get_encoded_size`. */
  method GetEncodedSize(fields: seq<Field>, slots: seq<Slot>) returns (size: Option<nat>)
    requires Shaped(fields, slots)
    ensures size == if Encode(fields, slots).Some? then Some(|Encode(fields, slots).value|) else None
  {
    var counter := new OStream.Sizing();
    var ok := EncodeMessage(counter, fields, slots);
    size := if ok then Some(counter.bytesWritten) else None;
  }
}
