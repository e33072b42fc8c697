/** Which descriptors restore every message (nanopb/pb_encode.c, lines 237-328; nanopb/pb_decode.c, lines 836-917): a
    field without has_ member is left out when it is zero, so its default has to stand for zero. */
module PbDefaults {
  import opened Coding
  import opened DbFormat
  import opened PbFields
  import opened PbEncode
  import opened PbDecode
  import opened PbRoundTrip

  // ---------- the condition on the descriptor ----------

  /** The type has valid values at all. */
  predicate Inhabited(k: Kind)
    decreases k
  {
    if k.Submessage? then InhabitedMessage(k.fields) else ValidDatum(k, Zero(k))
  }

  predicate InhabitedField(f: Field)
    decreases f
  {
    match f.rule
    case Required => Inhabited(f.kind)
    case Optional(hasFlag) => !hasFlag ==> Inhabited(f.kind)
    case Repeated(n, counted) => !counted && n > 0 ==> Inhabited(f.kind)
    case Oneof(_) => true
  }

  predicate InhabitedMessage(fields: seq<Field>)
    decreases fields
  {
    forall i :: 0 <= i < |fields| ==> InhabitedField(fields[i])
  }

  /** The zero of the type, when it is a valid value that counts as default, reads back as the default of the field: an
      empty string as a string that starts with NUL, false as false, and so on. */
  predicate ZeroDefault(f: Field) {
    !f.kind.Submessage? && ValidDatum(f.kind, Zero(f.kind)) && IsZero(f.kind, Zero(f.kind)) ==>
      Restored(f.kind, Zero(f.kind), DefaultDatum(f))
  }

  predicate FitField(f: Field)
    decreases f
  {
    && (f.rule == Optional(false) ==> ZeroDefault(f))
    && (f.kind.Submessage? && !(f.rule.Repeated? && f.rule.arraySize == 0) ==> DefaultsFit(f.kind.fields))
  }

  /** Every field without has_ member, here and in the messages inside, has no default or one that stands for zero. */
  predicate DefaultsFit(fields: seq<Field>)
    decreases fields
  {
    InhabitedMessage(fields) ==> forall i :: 0 <= i < |fields| ==> FitField(fields[i])
  }

  // ---------- the condition is sufficient ----------

  lemma {:induction false} ValidInhabits(k: Kind, d: Datum)
    requires ValidDatum(k, d)
    ensures Inhabited(k)
    decreases k, 0
  {
    match k
    case Submessage(fields) => ValidInhabitsMessage(fields, d.slots);
    case CString(size) => ZerosAreZero(size, 0);
    case _ =>
  }

  lemma {:induction false} ValidInhabitsField(f: Field, s: Slot)
    requires ValidSlot(f, s)
    ensures InhabitedField(f)
    decreases f, 1
  {
    hide ValidDatum, Inhabited;
    match f.rule
    case Required => ValidInhabits(f.kind, s.v);
    case Optional(hasFlag) =>
      if !hasFlag {
        ValidInhabits(f.kind, s.v);
      }
    case Repeated(n, counted) =>
      if !counted && n > 0 {
        ValidInhabits(f.kind, s.items[0]);
      }
    case Oneof(_) =>
  }

  lemma {:induction false} ValidInhabitsMessage(fields: seq<Field>, m: seq<Slot>)
    requires ValidMessage(fields, m)
    ensures InhabitedMessage(fields)
    decreases fields, 2
  {
    hide ValidSlot, InhabitedField;
    forall i | 0 <= i < |fields| ensures InhabitedField(fields[i]) {
      ValidInhabitsField(fields[i], m[Place(fields, i)]);
    }
  }

  lemma {:induction false} ZerosAreZero(n: nat, i: nat)
    requires i < n
    ensures Zeros(n)[i] == 0
  {
    if i < n - 1 {
      ZerosAreZero(n - 1, i);
    }
  }

  /** All values that count as default read back as the same. */
  lemma ZeroAlike(k: Kind, d: Datum, b: Datum)
    requires !k.Submessage? && ValidDatum(k, d) && IsZero(k, d)
    ensures ValidDatum(k, Zero(k)) && IsZero(k, Zero(k))
    ensures Restored(k, d, b) <==> Restored(k, Zero(k), b)
  {
    match k
    case CString(size) => ZerosAreZero(size, 0);
    case _ =>
  }

  lemma {:induction false} FitKeeps(k: Kind, d: Datum)
    requires ValidDatum(k, d) && (k.Submessage? ==> DefaultsFit(k.fields))
    ensures Kept(k, d)
    decreases k, 0
  {
    if k.Submessage? {
      FitKeepsMessage(k.fields, d.slots);
    }
  }

  lemma {:induction false} FitKeepsSlot(f: Field, s: Slot)
    requires ValidSlot(f, s) && FitField(f)
    ensures KeptSlot(f, s)
    decreases f, 1
  {
    hide Kept, ValidDatum, Restored, IsZero, DefaultDatum;
    match f.rule
    case Required => FitKeeps(f.kind, s.v);
    case Optional(hasFlag) =>
      if !hasFlag || s.has {
        FitKeeps(f.kind, s.v);
      }
      if !hasFlag && !f.kind.Submessage? && IsDefault(f, s) {
        ZeroAlike(f.kind, s.v, DefaultDatum(f));
      }
    case Repeated(n, _) =>
      forall k | 0 <= k < Elements(f, s) && k < n ensures Kept(f.kind, s.items[k]) {
        FitKeeps(f.kind, s.items[k]);
      }
    case Oneof(_) =>
      if s.which == f.tag {
        FitKeeps(f.kind, s.v);
      }
  }

  lemma {:induction false} FitKeepsMessage(fields: seq<Field>, m: seq<Slot>)
    requires ValidMessage(fields, m) && DefaultsFit(fields)
    ensures KeptMessage(fields, m)
    decreases fields, 2
  {
    hide ValidSlot, KeptSlot, FitField, InhabitedMessage;
    ValidInhabitsMessage(fields, m);
    forall i | 0 <= i < |fields| ensures KeptSlot(fields[i], m[Place(fields, i)]) {
      FitKeepsSlot(fields[i], m[Place(fields, i)]);
    }
  }

  // ---------- the condition is necessary ----------

  function Copies(d: Datum, n: nat): (r: seq<Datum>)
    ensures |r| == n && forall i :: 0 <= i < n ==> r[i] == d
  {
    seq(n, _ => d)
  }

  /** A valid value, if there is one. */
  function Least(k: Kind): Datum
    decreases k, 0
  {
    match k
    case Submessage(fields) => Struct(LeastMessage(fields, |fields|))
    case _ => Zero(k)
  }

  function LeastSlot(f: Field): Slot
    decreases f, 1
  {
    match f.rule
    case Required => Plain(Least(f.kind))
    case Optional(hasFlag) => if hasFlag then Maybe(false, Least(f.kind)) else Plain(Least(f.kind))
    case Repeated(n, _) => Many(0, Copies(Least(f.kind), n))
    case Oneof(_) => Union(0, Int(0))
  }

  /** The members of the first `n` fields: nothing is present that need not be. */
  function LeastMessage(fields: seq<Field>, n: nat): (r: seq<Slot>)
    requires n <= |fields|
    ensures |r| == Members(fields, n)
    decreases fields, n
  {
    if n == 0 then []
    else if n > 1 && Joined(fields, n - 1) then LeastMessage(fields, n - 1)
    else LeastMessage(fields, n - 1) + [LeastSlot(fields[n - 1])]
  }

  lemma {:induction false} LeastAt(fields: seq<Field>, n: nat, i: nat)
    requires i < n <= |fields|
    ensures Place(fields, i) < |LeastMessage(fields, n)|
    ensures LeastMessage(fields, n)[Place(fields, i)] == LeastSlot(fields[i])
    decreases n
  {
    MembersGrow(fields, i + 1, n);
    if i + 1 < n {
      LeastAt(fields, n - 1, i);
    } else if n > 1 && Joined(fields, n - 1) {
      LeastAt(fields, n - 1, i - 1);
    }
  }

  lemma {:induction false} LeastValid(k: Kind)
    requires (k.Submessage? ==> WellFormed(k.fields)) && Inhabited(k)
    ensures ValidDatum(k, Least(k))
    decreases k, 0
  {
    if k.Submessage? {
      LeastMessageValid(k.fields);
    }
  }

  lemma {:induction false} LeastSlotValid(f: Field)
    requires WellFormedField(f) && InhabitedField(f)
    ensures ValidSlot(f, LeastSlot(f))
    decreases f, 1
  {
    hide ValidDatum, Inhabited;
    if f.rule == Required || f.rule == Optional(false) || (f.rule.Repeated? && !f.rule.counted && f.rule.arraySize > 0) {
      LeastValid(f.kind);
    }
  }

  lemma {:induction false} LeastMessageValid(fields: seq<Field>)
    requires WellFormed(fields) && InhabitedMessage(fields)
    ensures ValidMessage(fields, LeastMessage(fields, |fields|))
    decreases fields, 2
  {
    hide ValidSlot, InhabitedField;
    forall i | 0 <= i < |fields|
      ensures LeastMessage(fields, |fields|)[Place(fields, i)] == LeastSlot(fields[i])
      ensures ValidSlot(fields[i], LeastSlot(fields[i]))
    {
      LeastAt(fields, |fields|, i);
      LeastSlotValid(fields[i]);
    }
  }

  /** The member that holds message `d`, and nothing else that need not be there. */
  function Around(f: Field, d: Datum): Slot {
    match f.rule
    case Required => Plain(d)
    case Optional(hasFlag) => if hasFlag then Maybe(true, d) else Plain(d)
    case Repeated(n, counted) =>
      if n == 0 then Many(0, []) else Many(1, Copies(Least(f.kind), n)[0 := d])
    case Oneof(_) => Union(f.tag, d)
  }

  lemma AroundValid(f: Field, d: Datum)
    requires WellFormedField(f) && InhabitedField(f) && f.kind.Submessage? && ValidDatum(f.kind, d)
    requires !(f.rule.Repeated? && f.rule.arraySize == 0) && !Kept(f.kind, d)
    ensures ValidSlot(f, Around(f, d)) && !KeptSlot(f, Around(f, d))
  {
    hide ValidDatum, Inhabited, Kept;
    if f.rule.Repeated? {
      if !f.rule.counted {
        LeastValid(f.kind);
      }
      assert Around(f, d).items[0] == d;
    }
  }

  /** Putting field `i` of the least message around a message keeps it valid. */
  lemma PutValid(fields: seq<Field>, i: nat, s: Slot)
    requires WellFormed(fields) && InhabitedMessage(fields) && i < |fields|
    requires ValidSlot(fields[i], s) && (fields[i].rule.Oneof? ==> s.which == fields[i].tag)
    ensures Place(fields, i) < |LeastMessage(fields, |fields|)|
    ensures ValidMessage(fields, LeastMessage(fields, |fields|)[Place(fields, i) := s])
  {
    hide ValidDatum, InhabitedField, WellFormedField, Place, Members;
    var m := LeastMessage(fields, |fields|);
    LeastMessageValid(fields);
    LeastAt(fields, |fields|, i);
    var l := Place(fields, i);
    var r := m[l := s];
    forall j | 0 <= j < |fields|
      ensures ValidSlot(fields[j], r[Place(fields, j)])
      ensures fields[j].rule.Oneof? ==>
        r[Place(fields, j)].which == 0 || Chosen(fields, r, |fields|, Place(fields, j))
    {
      LeastAt(fields, |fields|, j);
      if Place(fields, j) == l && j != i {
        if i < j {
          SharedPlace(fields, i, j);
        } else {
          SharedPlace(fields, j, i);
        }
        assert Picks(r[l], fields[i]);
      }
    }
  }

  /** For every other descriptor there is a valid message that loses a default. */
  lemma {:induction false} UnfitLoses(fields: seq<Field>) returns (m: seq<Slot>)
    requires WellFormed(fields) && !DefaultsFit(fields)
    ensures ValidMessage(fields, m) && !KeptMessage(fields, m)
    decreases fields, 1
  {
    hide ValidMessage, InhabitedMessage, ValidSlot, KeptSlot, InhabitedField;
    var i :| 0 <= i < |fields| && !FitField(fields[i]);
    var f := fields[i];
    m := LeastMessage(fields, |fields|);
    LeastAt(fields, |fields|, i);
    if f.rule == Optional(false) && !ZeroDefault(f) {
      LeastMessageValid(fields);
      LeastLoses(f);
    } else {
      var d := InsideLoses(f);
      NotKept(f.kind, d);
      FieldInhabited(fields, i);
      AroundValid(f, Struct(d));
      PutValid(fields, i, Around(f, Struct(d)));
      m := m[Place(fields, i) := Around(f, Struct(d))];
    }
  }

  lemma {:induction false} InsideLoses(f: Field) returns (m: seq<Slot>)
    requires WellFormedField(f) && f.kind.Submessage? && !DefaultsFit(f.kind.fields)
    ensures ValidMessage(f.kind.fields, m) && !KeptMessage(f.kind.fields, m)
    decreases f, 2
  {
    m := UnfitLoses(f.kind.fields);
  }

  lemma FieldInhabited(fields: seq<Field>, i: nat)
    requires InhabitedMessage(fields) && i < |fields|
    ensures InhabitedField(fields[i])
  {
  }

  lemma NotKept(k: Kind, m: seq<Slot>)
    requires k.Submessage? && ValidMessage(k.fields, m) && !KeptMessage(k.fields, m)
    ensures ValidDatum(k, Struct(m)) && !Kept(k, Struct(m))
  {
  }

  lemma LeastLoses(f: Field)
    requires f.rule == Optional(false) && !ZeroDefault(f)
    ensures !KeptSlot(f, LeastSlot(f))
  {
  }

  // ---------- the maximum encoded size ----------

  function DatumBound(k: Kind): nat
    decreases k, 0
  {
    match k
    case Boolean => 1
    case Fixed32 => 4
    case Fixed64 => 8
    case ByteArray(size) => 10 + size
    case CString(size) => 10 + size
    case FixedBytes(size) => 10 + size
    case Submessage(fields) => 10 + MessageBound(fields, 0)
    case _ => 10
  }

  function FieldBound(f: Field): nat
    decreases f
  {
    if f.rule.Repeated? then 15 + f.rule.arraySize * (5 + DatumBound(f.kind)) else 5 + DatumBound(f.kind)
  }

  /** No valid message takes more bytes from field `i` on. */
  function MessageBound(fields: seq<Field>, i: nat): nat
    requires i <= |fields|
    decreases fields, |fields| - i
  {
    if i == |fields| then 0 else FieldBound(fields[i]) + MessageBound(fields, i + 1)
  }

  lemma VarintShort(v: nat)
    requires v < TWO_64
    ensures |Varint(v)| <= 10
    ensures v < TWO_32 ==> |Varint(v)| <= 5
    ensures v < 128 ==> |Varint(v)| == 1
  {
    Powers();
    VarintLength(v, 10);
    if v < TWO_32 {
      VarintLength(v, 5);
    }
  }

  lemma {:induction false} DatumSize(k: Kind, d: Datum)
    requires (k.Submessage? ==> WellFormed(k.fields)) && ValidDatum(k, d)
    ensures EncodeDatum(k, d).Some? && |EncodeDatum(k, d).value| <= DatumBound(k)
    decreases k, 0
  {
    hide Varint, EncodeFields, ValidMessage, MessageBound, StrLen, EncodeFixed32, EncodeFixed64;
    match k
    case Boolean => VarintShort(if d.n != 0 then 1 else 0);
    case Signed(size) => VarintShort(d.n % TWO_64);
    case Unsigned(size) => VarintShort(d.n % TWO_64);
    case ZigZag(size) => VarintShort(ZigZagged(d.n) % TWO_64);
    case ByteArray(size) => VarintShort(|d.bytes| % TWO_64);
    case CString(size) => VarintShort(StrLen(d.bytes) % TWO_64);
    case FixedBytes(size) => VarintShort(|d.bytes| % TWO_64);
    case Submessage(fields) =>
      MessageSize(fields, d.slots, 0);
      VarintShort(|EncodeFields(fields, d.slots, 0).value| % TWO_64);
    case _ =>
  }

  lemma TaggedSize(f: Field, d: Datum)
    requires WellFormedField(f) && ValidDatum(f.kind, d)
    ensures EncodeTagged(f, d).Some? && |EncodeTagged(f, d).value| <= 5 + DatumBound(f.kind)
    decreases f, 0
  {
    hide EncodeDatum, ValidDatum, DatumBound, Varint;
    DatumSize(f.kind, d);
    VarintShort(f.tag * 8 + WireType(f.kind));
  }

  /** One more element. */
  lemma Times(n: nat, x: nat)
    requires n > 0
    ensures n * x == x + (n - 1) * x
  {
  }

  lemma {:induction false} PackedSize(k: Kind, items: seq<Datum>, i: nat, n: nat)
    requires Packable(k) && i <= n <= |items| && forall j :: i <= j < n ==> ValidDatum(k, items[j])
    ensures EncodePacked(k, items, i, n).Some? && |EncodePacked(k, items, i, n).value| <= (n - i) * DatumBound(k)
    decreases k, 1, n - i
  {
    hide EncodeDatum, ValidDatum, DatumBound;
    if i < n {
      DatumSize(k, items[i]);
      PackedSize(k, items, i + 1, n);
      Times(n - i, DatumBound(k));
    }
  }

  lemma {:induction false} UnpackedSize(f: Field, items: seq<Datum>, i: nat, n: nat)
    requires WellFormedField(f) && i <= n <= |items| && forall j :: i <= j < n ==> ValidDatum(f.kind, items[j])
    ensures EncodeUnpacked(f, items, i, n).Some?
    ensures |EncodeUnpacked(f, items, i, n).value| <= (n - i) * (5 + DatumBound(f.kind))
    decreases f, 1, n - i
  {
    hide EncodeTagged, ValidDatum, DatumBound;
    if i < n {
      TaggedSize(f, items[i]);
      UnpackedSize(f, items, i + 1, n);
      Times(n - i, 5 + DatumBound(f.kind));
    }
  }

  lemma MoreTimes(m: nat, n: nat, x: nat)
    requires m <= n
    ensures m * x <= n * x && m * x <= m * (5 + x) <= n * (5 + x)
  {
    assert (n - m) * x >= 0;
  }

  lemma {:induction false} ArraySize(f: Field, s: Slot)
    requires WellFormedField(f) && ValidSlot(f, s) && f.rule.Repeated?
    ensures EncodeField(f, s).Some? && |EncodeField(f, s).value| <= FieldBound(f)
    decreases f, 2
  {
    hide EncodeDatum, EncodePacked, EncodeUnpacked, ValidDatum, DatumBound, Varint;
    var n := Elements(f, s);
    MoreTimes(n, f.rule.arraySize, DatumBound(f.kind));
    if Packable(f.kind) {
      PackedSize(f.kind, s.items, 0, n);
      VarintShort(f.tag * 8 + WT_STRING);
      VarintShort(|EncodePacked(f.kind, s.items, 0, n).value| % TWO_64);
    } else {
      UnpackedSize(f, s.items, 0, n);
    }
  }

  lemma {:induction false} FieldSize(f: Field, s: Slot)
    requires WellFormedField(f) && ValidSlot(f, s)
    ensures EncodeField(f, s).Some? && |EncodeField(f, s).value| <= FieldBound(f)
    decreases f, 3
  {
    hide EncodeTagged, ValidDatum, DatumBound, EncodeArray;
    match f.rule
    case Repeated(_, _) => ArraySize(f, s);
    case Required => TaggedSize(f, s.v);
    case Optional(hasFlag) =>
      if !hasFlag || s.has {
        TaggedSize(f, s.v);
      }
    case Oneof(_) =>
      if s.which == f.tag {
        TaggedSize(f, s.v);
      }
  }

  /** The bound holds. */
  lemma {:induction false} MessageSize(fields: seq<Field>, m: seq<Slot>, i: nat)
    requires WellFormed(fields) && ValidMessage(fields, m) && i <= |fields|
    ensures EncodeFields(fields, m, i).Some? && |EncodeFields(fields, m, i).value| <= MessageBound(fields, i)
    decreases fields, 4, |fields| - i
  {
    hide ValidSlot, EncodeField, FieldBound, WellFormedField;
    if i < |fields| {
      FieldSize(fields[i], m[Place(fields, i)]);
      MessageSize(fields, m, i + 1);
    }
  }

  // ---------- together ----------

  /** Decoding what was encoded gives the message back. */
  predicate ComesBack(fields: seq<Field>, m: seq<Slot>) {
    var e := Encode(fields, m);
    e.Some? && var r := Decode(fields, e.value); r.Some? && RestoredMessage(fields, m, r.value)
  }

  /** All valid messages keep their defaults exactly if the descriptor has the right ones. */
  lemma FitsExactly(fields: seq<Field>)
    requires WellFormed(fields)
    ensures DefaultsFit(fields) <==> forall m :: ValidMessage(fields, m) ==> KeptMessage(fields, m)
  {
    hide ValidMessage, KeptMessage, DefaultsFit, WellFormed;
    if DefaultsFit(fields) {
      forall m | ValidMessage(fields, m) ensures KeptMessage(fields, m) {
        FitKeepsMessage(fields, m);
      }
    } else {
      var m := UnfitLoses(fields);
    }
  }

  /** Main theorem: for every descriptor whose messages stay below 4 GB, every valid message comes back if and only if
      every field without has_ member, here and in the messages inside, has no default or one that stands for zero. */
  lemma RestoresExactly(fields: seq<Field>)
    requires WellFormed(fields) && MessageBound(fields, 0) < TWO_32
    ensures DefaultsFit(fields) <==> forall m :: ValidMessage(fields, m) ==> ComesBack(fields, m)
  {
    hide ValidMessage, KeptMessage, DefaultsFit, WellFormed, MessageBound, RestoredMessage, EncodeFields;
    FitsExactly(fields);
    forall m | ValidMessage(fields, m) ensures ComesBack(fields, m) <==> KeptMessage(fields, m) {
      MessageSize(fields, m, 0);
      MessageRoundTrip(fields, m);
    }
  }

  lemma OtherUnfit(f: Field, other: int)
    requires Packable(f.kind) && ValidDatum(f.kind, Int(0)) && f.rule == Optional(false)
    requires f.default == Some(Int(other)) && other != 0
    ensures !DefaultsFit([f]) && ValidSlot(f, Plain(Int(0)))
  {
    assert Zero(f.kind) == Int(0) && IsZero(f.kind, Int(0)) && !Restored(f.kind, Int(0), Int(other));
    assert DefaultDatum(f) == Int(other);
    assert !ZeroDefault(f) && !FitField([f][0]);
    assert InhabitedField(f);
  }

  /** The input that shows it: the zero of a number whose default is another one comes back as the default. */
  lemma OtherDefaultLost(tag: nat, k: Kind, other: int)
    requires Packable(k) && ValidDatum(k, Int(0)) && tag > 0 && other != 0
    ensures
      var fields := [Field(tag, Optional(false), k, Some(Int(other)))];
      var m := [Plain(Int(0))];
      && Encode(fields, m) == Some([])
      && Decode(fields, []) == Some([Plain(Int(other))])
      && ValidMessage(fields, m) && !RestoredMessage(fields, m, [Plain(Int(other))])
      && !DefaultsFit(fields)
  {
    var f := Field(tag, Optional(false), k, Some(Int(other)));
    var fields, m := [f], [Plain(Int(0))];
    assert Members(fields, 1) == Members(fields, 0) + 1 && Place(fields, 0) == 0;
    assert IsZero(k, Int(0)) && IsDefault(f, m[0]);
    assert EncodeField(f, m[0]) == Some([]);
    assert EncodeFields(fields, m, 1) == Some([]);
    assert DefaultSlot(f) == Plain(Int(other));
    assert Defaults(fields, 0) == [] && Defaults(fields, 1) == [Plain(Int(other))];
    assert RequiredBefore(fields, 1) == 0;
    var p := Progress(Defaults(fields, 1), None, 0, {});
    assert Loop(fields, [], p) == Some(p);
    assert EncodeFields(fields, m, 0) == Append(Some([]), Some([]));
    assert Encode(fields, m).value == [];
    assert AllSeen(fields, p) && FixedComplete(fields, p);
    OtherUnfit(f, other);
    assert !RestoredSlot(fields[0], m[Place(fields, 0)], Plain(Int(other)));
  }
}
