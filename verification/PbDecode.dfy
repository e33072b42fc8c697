/** The decoder (nanopb/pb_decode.c): first as functions from bytes to memory, then as the procedures that consume a
    stream. */
module PbDecode {
  import opened Coding
  import opened DbFormat
  import opened PbFields
  import opened PbEncode

  // ---------- integers ----------

  /** `pb_decode_varint32` after `n` bytes with continuation bits: more bytes than fit must be zeros or a sign
      extension. */
  function Varint32Rest(b: Bytes, n: nat, result: nat): (r: Option<(nat, nat)>)
    requires n <= |b|
    ensures r.Some? ==> n < r.value.1 <= |b|
    decreases |b| - n
  {
    if n == |b| then None
    else
      var byte: nat := b[n];
      if 7 * n >= 32 then
        if byte % 128 != 0 && (result < 0x8000_0000 || byte != if 7 * n < 63 then 0xFF else 0x01) then None
        else if byte >= 128 then Varint32Rest(b, n + 1, result)
        else Some((result, n + 1))
      else
        var sum := result + byte % 128 * Power128(n) % TWO_32;
        if byte >= 128 then Varint32Rest(b, n + 1, sum)
        else if n == 4 && byte % 128 >= 16 then None
        else Some((sum, n + 1))
  }

  function ReadVarint32(b: Bytes): (r: Option<(nat, nat)>)
    ensures r.Some? ==> 1 <= r.value.1 <= |b|
  {
    if b == [] then None
    else if b[0] < 128 then Some((b[0], 1))
    else var d: nat := b[0]; Varint32Rest(b, 1, d - 128)
  }

  lemma {:induction false} Varint32RestReads(b: Bytes, n: nat, result: nat, v: nat, rest: Bytes)
    requires 1 <= n <= |b| && b[n..] == Varint(v) + rest && v > 0
    requires result < Power128(n) && result + v * Power128(n) < TWO_32
    ensures Varint32Rest(b, n, result) == Some((result + v * Power128(n), n + |Varint(v)|))
    decreases v
  {
    var p := Power128(n);
    FewBytes(v, n);
    assert b[n] == b[n..][0];
    if v < 128 {
      assert v * p % TWO_32 == v * p;
    } else {
      var r, q := v % 128, v / 128;
      assert v == r + 128 * q && b[n] == r + 128;
      Split(r, q, p);
      assert Power128(n + 1) == 128 * p;
      assert b[n + 1..] == b[n..][1..];
      assert (Varint(v) + rest)[1..] == Varint(q) + rest;
      assert r * p % TWO_32 == r * p;
      Varint32RestReads(b, n + 1, result + r * p, q, rest);
    }
  }

  lemma FewBytes(v: nat, n: nat)
    requires v > 0 && v * Power128(n) < TWO_32
    ensures n <= 4 && (n == 4 ==> v < 16)
  {
    Powers();
    assert (v - 1) * Power128(n) >= 0;
    if n >= 5 {
      PowerGrows(5, n);
    }
  }

  lemma {:induction false} PowerGrows(m: nat, n: nat)
    requires m <= n
    ensures Power128(m) <= Power128(n)
    decreases n
  {
    if m < n {
      PowerGrows(m, n - 1);
    }
  }

  /** `r` and `q` are the digits of a number below and above 128. */
  lemma Split(r: nat, q: nat, p: nat)
    ensures (r + 128 * q) * p == r * p + q * (128 * p)
    ensures 0 <= r * p && 0 <= q * (128 * p)
    ensures r < 128 ==> r * p <= 127 * p
  {
    if r < 128 {
      assert (127 - r) * p >= 0;
    }
  }

  /** What the encoder writes for 32-bit numbers, this decoder reads back. */
  lemma Varint32RoundTrip(v: nat, rest: Bytes)
    requires v < TWO_32
    ensures ReadVarint32(Varint(v) + rest) == Some((v, |Varint(v)|))
  {
    var b := Varint(v) + rest;
    if v >= 128 {
      assert b[1..] == Varint(v / 128) + rest;
      assert Power128(1) == 128 * Power128(0);
      Varint32RestReads(b, 1, v % 128, v / 128, rest);
    }
  }

  /** Two's complement. */
  function AsSigned(v: nat, range: nat): int {
    if v < range / 2 then v else v - range
  }

  /** The range of an integer of `size` bytes. */
  function Range(size: nat): nat {
    if size == 1 then 0x100 else if size == 2 then 0x1_0000 else if size == 4 then TWO_32 else TWO_64
  }

  function NarrowSigned(s: int, size: nat): Option<Datum> {
    if IntegerSize(size) && AsSigned(s % Range(size), Range(size)) == s then Some(Int(s)) else None
  }

  function NarrowUnsigned(v: nat, size: nat): Option<Datum> {
    if IntegerSize(size) && v < Range(size) then Some(Int(v)) else None
  }

  /** `pb_dec_varint`: integers of at most 32 bits take their sign from the low 32 bits. */
  function FromSigned(v: nat, size: nat): Option<Datum> {
    if size == 8 then Some(Int(AsSigned(v, TWO_64)))
    else NarrowSigned(AsSigned(v % TWO_32, TWO_32), size)
  }

  function UnZigZag(v: nat): int {
    if v % 2 == 1 then -(v / 2) - 1 else v / 2
  }

  // ---------- values ----------

  /** A length and that many bytes: the bytes, and what both take. */
  function ReadPrefixed(b: Bytes): (r: Option<(Bytes, nat)>)
    ensures r.Some? ==> 1 <= r.value.1 <= |b|
  {
    match ReadVarint32(b)
    case None => None
    case Some((size, n)) => if n + size <= |b| then Some((b[n..n + size], n + size)) else None
  }

  function WithBytes(d: Option<Datum>, n: nat): Option<(Datum, nat)> {
    if d.Some? then Some((d.value, n)) else None
  }

  /** One value, and the bytes it takes. A submessage is decoded into the structure already there. */
  function DecodeDatum(k: Kind, there: Datum, b: Bytes): (r: Option<(Datum, nat)>)
    ensures r.Some? ==> 1 <= r.value.1 <= |b|
    decreases k, 0
  {
    match k
    case Boolean =>
      (match ReadVarint32(b)
       case None => None
       case Some((v, n)) => Some((Int(if v != 0 then 1 else 0), n)))
    case Signed(size) =>
      (match ReadVarint(b, 10)
       case None => None
       case Some((v, n)) => WithBytes(FromSigned(v % TWO_64, size), n))
    case Unsigned(size) =>
      (match ReadVarint(b, 10)
       case None => None
       case Some((v, n)) => WithBytes(NarrowUnsigned(v % TWO_64, size), n))
    case ZigZag(size) =>
      (match ReadVarint(b, 10)
       case None => None
       case Some((v, n)) => WithBytes(NarrowSigned(UnZigZag(v % TWO_64), size), n))
    case Fixed32 => if |b| < 4 then None else Some((Int(DecodeFixed32(b)), 4))
    case Fixed64 => if |b| < 8 then None else Some((Int(DecodeFixed64(b)), 8))
    case ByteArray(size) =>
      (match ReadPrefixed(b)
       case None => None
       case Some((s, n)) => if |s| + BYTES_HEADER > size then None else Some((Data(s), n)))
    case CString(size) =>
      (match ReadPrefixed(b)
       case None => None
       case Some((s, n)) => if |s| + 1 > size then None else Some((Data(s + [0]), n)))
    case FixedBytes(size) =>
      (match ReadPrefixed(b)
       case None => None
       case Some((s, n)) =>
         if s == [] then Some((Data(Zeros(size)), n)) else if |s| != size then None else Some((Data(s), n)))
    case Submessage(fields) =>
      (match ReadPrefixed(b)
       case None => None
       case Some((s, n)) =>
         if !there.Struct? then None
         else
           match DecodeNoInit(fields, s, there.slots)
           case None => None
           case Some(slots) => Some((Struct(slots), n)))
  }

  /** The loop over a packed array: stops when the bytes end or the array is full. */
  function DecodePacked(k: Kind, b: Bytes, items: seq<Datum>, count: nat): (r: Option<(seq<Datum>, nat)>)
    ensures r.Some? ==> |r.value.0| == |items|
    decreases k, 1, |b|
  {
    if b == [] then Some((items, count))
    else if count >= |items| then None
    else
      match DecodeDatum(k, items[count], b)
      case None => None
      case Some((d, n)) => DecodePacked(k, b[n..], items[count := d], count + 1)
  }

  /** Storage that is initialised again before it is decoded into: elements and oneof members that are messages. */
  function Start(k: Kind, there: Datum): Datum {
    match k
    case Submessage(fields) => Struct(Defaults(fields, |fields|))
    case _ => there
  }

  /** `decode_static_field`. `fixedSize` counts the elements of the array without a counter that is being read. */
  function DecodeField(f: Field, wire: nat, b: Bytes, s: Slot, fixedSize: nat): (r: Option<(Slot, nat, nat)>)
    ensures r.Some? ==> r.value.2 <= |b|
    decreases f
  {
    match (f.rule, s)
    case (Required, Plain(v)) => OneValue(DecodeDatum(f.kind, v, b), d => Plain(d), fixedSize)
    case (Optional(hasFlag), Maybe(_, v)) =>
      if hasFlag then OneValue(DecodeDatum(f.kind, v, b), d => Maybe(true, d), fixedSize) else None
    case (Optional(hasFlag), Plain(v)) =>
      if hasFlag then None else OneValue(DecodeDatum(f.kind, v, b), d => Plain(d), fixedSize)
    case (Oneof(_), Union(_, v)) =>
      OneValue(DecodeDatum(f.kind, Start(f.kind, v), b), d => Union(f.tag, d), fixedSize)
    case (Repeated(arraySize, counted), Many(count, items)) =>
      (var size := if counted then count else fixedSize;
      if wire == WT_STRING && Packable(f.kind) then
        match ReadPrefixed(b)
        case None => None
        case Some((sub, n)) =>
          if |items| != arraySize then None
          else
            match DecodePacked(f.kind, sub, items, size)
            case None => None
            case Some((items', size')) =>
              Some((Many(if counted then size' else count, items'), if counted then fixedSize else size', n))
      else if size >= arraySize || size >= |items| then None
      else
        match DecodeDatum(f.kind, Start(f.kind, items[size]), b)
        case None => None
        case Some((d, n)) =>
          Some((Many(if counted then size + 1 else count, items[size := d]),
                if counted then fixedSize else size + 1, n)))
    case _ => None
  }

  function OneValue(d: Option<(Datum, nat)>, wrap: Datum -> Slot, fixedSize: nat): Option<(Slot, nat, nat)> {
    if d.None? then None else Some((wrap(d.value.0), fixedSize, d.value.1))
  }

  // ---------- messages ----------

  function SkipVarint(b: Bytes): (r: Option<nat>)
    ensures r.Some? ==> r.value <= |b|
  {
    if b == [] then None
    else if b[0] < 128 then Some(1)
    else match SkipVarint(b[1..]) case None => None case Some(n) => Some(n + 1)
  }

  function SkipField(wire: nat, b: Bytes): (r: Option<nat>)
    ensures r.Some? ==> r.value <= |b|
  {
    if wire == WT_VARINT then SkipVarint(b)
    else if wire == WT_64BIT then if |b| < 8 then None else Some(8)
    else if wire == WT_STRING then (match ReadPrefixed(b) case None => None case Some((_, n)) => Some(n))
    else if wire == WT_32BIT then if |b| < 4 then None else Some(4)
    else None
  }

  /** The structure, the array without a counter that was read last and how far, and the required fields seen. */
  datatype Progress = Progress(slots: seq<Slot>, fixedField: Option<nat>, fixedSize: nat, seen: set<nat>)

  predicate Shape(fields: seq<Field>, p: Progress) {
    && |p.slots| == Members(fields, |fields|)
    && (p.fixedField.Some? ==> p.fixedField.value < |fields| && fields[p.fixedField.value].rule.Repeated?)
  }

  predicate Uncounted(f: Field) {
    f.rule.Repeated? && !f.rule.counted
  }

  predicate FixedComplete(fields: seq<Field>, p: Progress)
    requires Shape(fields, p)
  {
    p.fixedField.None? || p.fixedSize == fields[p.fixedField.value].rule.arraySize
  }

  /** How many elements of array `i` have been read, when it has no counter of its own. */
  function StartSize(fields: seq<Field>, i: nat, p: Progress): nat
    requires i < |fields|
  {
    if Uncounted(fields[i]) && p.fixedField != Some(i) then 0 else p.fixedSize
  }

  /** Field `i` has been read into `s`. */
  function After(fields: seq<Field>, i: nat, p: Progress, s: Slot, size: nat): (q: Progress)
    requires Shape(fields, p) && i < |fields|
    ensures Shape(fields, q)
  {
    var index := RequiredBefore(fields, i);
    var seen := if fields[i].rule.Required? && index < MAX_REQUIRED_FIELDS then p.seen + {index} else p.seen;
    Progress(p.slots[Place(fields, i) := s], if Uncounted(fields[i]) then Some(i) else p.fixedField, size, seen)
  }

  /** One round of the loop after its tag. */
  function Step(fields: seq<Field>, tag: nat, wire: nat, b: Bytes, p: Progress): (r: Option<(Progress, nat)>)
    requires Shape(fields, p)
    ensures r.Some? ==> Shape(fields, r.value.0) && r.value.1 <= |b|
    decreases fields, 0
  {
    match Find(fields, tag, 0)
    case None => (match SkipField(wire, b) case None => None case Some(n) => Some((p, n)))
    case Some(i) =>
      if Uncounted(fields[i]) && p.fixedField != Some(i) && !FixedComplete(fields, p) then None
      else
        match DecodeField(fields[i], wire, b, p.slots[Place(fields, i)], StartSize(fields, i, p))
        case None => None
        case Some((s, size, n)) => Some((After(fields, i, p, s, size), n))
  }

  function Loop(fields: seq<Field>, b: Bytes, p: Progress): (r: Option<Progress>)
    requires Shape(fields, p)
    ensures r.Some? ==> Shape(fields, r.value)
    decreases fields, 1, |b|
  {
    if b == [] then Some(p)
    else
      match ReadVarint32(b)
      case None => None
      case Some((v, n)) =>
        if v == 0 then Some(p)
        else
          match Step(fields, v / 8, v % 8, b[n..], p)
          case None => None
          case Some((q, m)) => Loop(fields, b[n..][m..], q)
  }

  predicate AllSeen(fields: seq<Field>, p: Progress) {
    forall i :: 0 <= i < RequiredBefore(fields, |fields|) && i < MAX_REQUIRED_FIELDS ==> i in p.seen
  }

  /** `pb_decode_noinit`. */
  function DecodeNoInit(fields: seq<Field>, b: Bytes, slots: seq<Slot>): Option<seq<Slot>>
    decreases fields, 2
  {
    if |slots| != Members(fields, |fields|) then None
    else
      match Loop(fields, b, Progress(slots, None, 0, {}))
      case None => None
      case Some(p) => if FixedComplete(fields, p) && AllSeen(fields, p) then Some(p.slots) else None
  }

  /** `pb_decode`. */
  function Decode(fields: seq<Field>, b: Bytes): Option<seq<Slot>> {
    DecodeNoInit(fields, b, Defaults(fields, |fields|))
  }
}
