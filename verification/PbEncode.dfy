/** The encoder (nanopb/pb_encode.c): first as functions from memory to bytes, then as the procedures that write to a
    stream of limited size or only count. */
module PbEncode {
  import opened Coding
  import opened DbFormat
  import opened PbFields

  const WT_VARINT := 0
  const WT_64BIT := 1
  const WT_STRING := 2
  const WT_32BIT := 5

  function WireType(k: Kind): nat {
    match k
    case Fixed32 => WT_32BIT
    case Fixed64 => WT_64BIT
    case ByteArray(_) => WT_STRING
    case CString(_) => WT_STRING
    case Submessage(_) => WT_STRING
    case FixedBytes(_) => WT_STRING
    case _ => WT_VARINT
  }

  function TagBytes(tag: nat, wire: nat): Bytes {
    Varint(tag * 8 + wire)
  }

  /** Characters before the first NUL, or the whole buffer. */
  function StrLen(b: Bytes): (n: nat)
    ensures n <= |b| && 0 !in b[..n] && (n < |b| ==> b[n] == 0)
  {
    if b == [] || b[0] == 0 then 0
    else
      var n := 1 + StrLen(b[1..]);
      assert b[..n] == [b[0]] + b[1..][..n - 1];
      n
  }

  predicate IntegerSize(size: nat) {
    size == 1 || size == 2 || size == 4 || size == 8
  }

  /** Negative numbers become odd, others even. */
  function ZigZagged(n: int): nat {
    if n < 0 then -2 * n - 1 else 2 * n
  }

  function Append(a: Option<Bytes>, b: Option<Bytes>): Option<Bytes> {
    if a.Some? && b.Some? then Some(a.value + b.value) else None
  }

  /** The length, as a 64-bit number, and the bytes. */
  function Prefixed(b: Bytes): Bytes {
    Varint(|b| % TWO_64) + b
  }

  /** The value without its tag; `None` for the errors "invalid data_size" and "bytes size exceeded". */
  function EncodeDatum(k: Kind, d: Datum): Option<Bytes>
    decreases k, 0
  {
    match (k, d)
    case (Boolean, Int(n)) => Some(Varint(if n != 0 then 1 else 0))
    case (Signed(size), Int(n)) => if IntegerSize(size) then Some(Varint(n % TWO_64)) else None
    case (Unsigned(size), Int(n)) => if IntegerSize(size) then Some(Varint(n % TWO_64)) else None
    case (ZigZag(size), Int(n)) => if IntegerSize(size) then Some(Varint(ZigZagged(n) % TWO_64)) else None
    case (Fixed32, Int(n)) => Some(EncodeFixed32(n % TWO_32))
    case (Fixed64, Int(n)) => Some(EncodeFixed64(n % TWO_64))
    case (ByteArray(size), Data(b)) => if |b| + BYTES_HEADER > size then None else Some(Prefixed(b))
    case (CString(size), Data(b)) => Some(Prefixed(b[..StrLen(b)]))
    case (FixedBytes(size), Data(b)) => Some(Prefixed(b))
    case (Submessage(fields), Struct(slots)) =>
      (match EncodeFields(fields, slots, 0)
       case None => None
       case Some(e) => Some(Prefixed(e)))
    case _ => None
  }

  /** Elements `i` to `n`, without tags. */
  function EncodePacked(k: Kind, items: seq<Datum>, i: nat, n: nat): Option<Bytes>
    requires i <= n <= |items|
    decreases k, 1, n - i
  {
    if i == n then Some([])
    else Append(EncodeDatum(k, items[i]), EncodePacked(k, items, i + 1, n))
  }

  function EncodeTagged(f: Field, d: Datum): Option<Bytes>
    decreases f, 0
  {
    match EncodeDatum(f.kind, d)
    case None => None
    case Some(e) => Some(TagBytes(f.tag, WireType(f.kind)) + e)
  }

  /** Elements `i` to `n`, each with its tag. */
  function EncodeUnpacked(f: Field, items: seq<Datum>, i: nat, n: nat): Option<Bytes>
    requires i <= n <= |items|
    decreases f, 1, n - i
  {
    if i == n then Some([])
    else Append(EncodeTagged(f, items[i]), EncodeUnpacked(f, items, i + 1, n))
  }

  /** `encode_array`: packs whenever the type allows it. */
  function EncodeArray(f: Field, items: seq<Datum>, count: nat): Option<Bytes>
    requires f.rule.Repeated?
    decreases f, 2
  {
    if count == 0 then Some([])
    else if count > f.rule.arraySize || count > |items| then None
    else if !Packable(f.kind) then EncodeUnpacked(f, items, 0, count)
    else
      match EncodePacked(f.kind, items, 0, count)
      case None => None
      case Some(e) => Some(TagBytes(f.tag, WT_STRING) + Prefixed(e))
  }

  /** `pb_check_proto3_default_value`. */
  predicate IsDefault(f: Field, s: Slot)
    decreases f, 1
  {
    match f.rule
    case Required => false
    case Repeated(_, counted) => counted && s.Many? && s.count == 0
    case Oneof(_) => s.Union? && s.which == 0
    case Optional(hasFlag) => if hasFlag then s.Maybe? && !s.has else s.Plain? && IsZero(f.kind, s.v)
  }

  predicate IsZero(k: Kind, d: Datum)
    decreases k
  {
    match (k, d)
    case (ByteArray(_), Data(b)) => b == []
    case (CString(_), Data(b)) => b != [] && b[0] == 0
    case (FixedBytes(size), _) => size == 0
    case (Submessage(fields), Struct(slots)) => AllDefault(fields, slots, 0)
    case (_, Int(n)) => !k.Submessage? && n == 0
    case _ => false
  }

  predicate AllDefault(fields: seq<Field>, slots: seq<Slot>, i: nat)
    requires i <= |fields|
    decreases fields, |fields| - i
  {
    i == |fields| || (Place(fields, i) < |slots| && IsDefault(fields[i], slots[Place(fields, i)])
                      && AllDefault(fields, slots, i + 1))
  }

  /** `encode_basic_field`. */
  function EncodeField(f: Field, s: Slot): Option<Bytes>
    decreases f, 3
  {
    match (f.rule, s)
    case (Required, Plain(v)) => EncodeTagged(f, v)
    case (Optional(hasFlag), Maybe(has, v)) =>
      if !hasFlag then None else if has then EncodeTagged(f, v) else Some([])
    case (Optional(hasFlag), Plain(v)) =>
      if hasFlag then None else if IsDefault(f, s) then Some([]) else EncodeTagged(f, v)
    case (Repeated(n, counted), Many(count, items)) => EncodeArray(f, items, if counted then count else n)
    case (Oneof(_), Union(which, v)) => if which == f.tag then EncodeTagged(f, v) else Some([])
    case _ => None
  }

  /** `pb_encode` from field `i` on. */
  function EncodeFields(fields: seq<Field>, slots: seq<Slot>, i: nat): Option<Bytes>
    requires i <= |fields|
    decreases fields, |fields| - i
  {
    if i == |fields| then Some([])
    else if Place(fields, i) >= |slots| then None
    else Append(EncodeField(fields[i], slots[Place(fields, i)]), EncodeFields(fields, slots, i + 1))
  }

  function Encode(fields: seq<Field>, slots: seq<Slot>): Option<Bytes> {
    EncodeFields(fields, slots, 0)
  }
}
