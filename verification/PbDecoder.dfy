/** The decoder's procedures (nanopb/pb_decode.c, lines 87-480, 925-1087, 1264-1548): each reads from the stream exactly
    what module `PbDecode` says, or fails where it says so. */
module PbDecoder {
  import opened Coding
  import opened DbFormat
  import opened PbFields
  import opened PbEncode
  import opened PbDecode

  /** `pb_istream_t` over a memory buffer. */
  class IStream {
    const source: Bytes
    var state: nat
    var bytesLeft: nat

    predicate Valid()
      reads this
    {
      state + bytesLeft <= |source|
    }

    /** The bytes that the stream may still read. */
    ghost function Rest(): (r: Bytes)
      requires Valid()
      reads this
      ensures |r| == bytesLeft
    {
      source[state..state + bytesLeft]
    }

    constructor (source: Bytes, state: nat, bytesLeft: nat)
      requires state + bytesLeft <= |source|
      ensures Valid() && this.source == source && this.state == state && this.bytesLeft == bytesLeft
    {
      this.source := source;
      this.state := state;
      this.bytesLeft := bytesLeft;
    }

    /** `n` bytes were read. */
    twostate predicate Took(n: nat)
      requires old(Valid())
      reads this
    {
      && Valid()
      && n <= old(bytesLeft)
      && state == old(state) + n
      && bytesLeft == old(bytesLeft) - n
    }

    /** `pb_read`. */
    method Read(n: nat) returns (b: Option<Bytes>)
      requires Valid()
      modifies this
      ensures Valid()
      ensures if n <= old(bytesLeft) then b == Some(old(Rest())[..n]) && Took(n) else b.None?
    {
      if bytesLeft < n {
        return None;
      }
      b := Some(source[state..state + n]);
      assert source[state..state + bytesLeft][..n] == source[state..state + n];
      state := state + n;
      bytesLeft := bytesLeft - n;
    }

    /** `pb_readbyte`. */
    method ReadByte() returns (b: Option<Byte>)
      requires Valid()
      modifies this
      ensures Valid()
      ensures if old(bytesLeft) > 0 then b == Some(old(Rest())[0]) && Took(1) else b.None?
    {
      if bytesLeft == 0 {
        return None;
      }
      b := Some(source[state]);
      state := state + 1;
      bytesLeft := bytesLeft - 1;
    }

    // ---------- integers ----------

    /** `pb_decode_varint32`. */
    method DecodeVarint32() returns (r: Option<nat>)
      requires Valid()
      modifies this
      ensures Valid()
      ensures match ReadVarint32(old(Rest()))
              case None => r.None?
              case Some((v, n)) => r == Some(v) && Took(n)
    {
      ghost var all := Rest();
      var first := ReadByte();
      if first.None? {
        return None;
      }
      if first.value < 128 {
        return Some(first.value);
      }
      var result: nat, n, unit: nat := first.value % 128, 1, 128;
      assert Power128(1) == 128 * Power128(0);
      while true
        invariant Valid() && 1 <= n <= |all| && state == old(state) + n && bytesLeft == |all| - n
        invariant unit == Power128(n)
        invariant ReadVarint32(all) == Varint32Rest(all, n, result)
        decreases bytesLeft
      {
        var byte := ReadByte();
        if byte.None? {
          return None;
        }
        assert byte.value == all[n];
        var d := byte.value % 128;
        if 7 * n >= 32 {
          var extension := if 7 * n < 63 then 0xFF else 0x01;
          if d != 0 && (result < 0x8000_0000 || byte.value != extension) {
            return None;
          }
        } else {
          result := result + d * unit % TWO_32;
        }
        n := n + 1;
        unit := 128 * unit;
        if byte.value < 128 {
          if n == 5 && d >= 16 {
            return None;
          }
          return Some(result);
        }
      }
    }

    /** `pb_decode_varint`: bits beyond the 64th are lost. */
    method DecodeVarint() returns (r: Option<nat>)
      requires Valid()
      modifies this
      ensures Valid()
      ensures match ReadVarint(old(Rest()), 10)
              case None => r.None?
              case Some((v, n)) => r == Some(v % TWO_64) && Took(n)
    {
      hide ReadVarint, Pending, AddDigit, Power128;
      ghost var all := Rest();
      var result: nat, unit: nat, n: nat := 0, 1, 0;
      Started(all);
      while true
        invariant Valid() && n <= |all| && n <= 10 && state == old(state) + n && bytesLeft == |all| - n
        invariant n < 10 ==> SoFar(all, n, result, unit)
        invariant n == 10 ==> ReadVarint(all, 10) == None
        decreases bytesLeft
      {
        if n >= 10 {
          return None;
        }
        var byte := ReadByte();
        if byte.None? {
          ReadOut(all, 10, n, result, unit);
          return None;
        }
        DigitAdded(all, n, result, unit);
        result := AddDigit(result, byte.value % 128, unit);
        if byte.value < 128 {
          return Some(result);
        }
        unit := 128 * unit;
        n := n + 1;
      }
    }

    // ---------- strings ----------

    /** `pb_make_string_substream`. */
    method MakeSubstream() returns (sub: Option<IStream>)
      requires Valid()
      modifies this
      ensures Valid()
      ensures match ReadPrefixed(old(Rest()))
              case None => sub.None?
              case Some((s, n)) =>
                && sub.Some? && fresh(sub.value) && sub.value.Valid()
                && sub.value.source == source && sub.value.Rest() == s
                && sub.value.state + |s| == old(state) + n && bytesLeft == old(bytesLeft) - n
    {
      ghost var all := Rest();
      var size := DecodeVarint32();
      if size.None? || bytesLeft < size.value {
        return None;
      }
      var substream := new IStream(source, state, size.value);
      bytesLeft := bytesLeft - size.value;
      ghost var n := ReadVarint32(all).value.1;
      SliceOfSlice(source, old(state), old(bytesLeft), n, size.value);
      sub := Some(substream);
    }

    /** `pb_close_string_substream`: skips what the substream has not read. */
    method CloseSubstream(sub: IStream)
      requires sub != this && sub.Valid() && sub.source == source
      requires sub.state + sub.bytesLeft + bytesLeft <= |source|
      modifies this, sub
      ensures Valid() && state == old(sub.state + sub.bytesLeft) && bytesLeft == old(bytesLeft)
    {
      if sub.bytesLeft > 0 {
        var _ := sub.Read(sub.bytesLeft);
      }
      state := sub.state;
    }

    /** A length and as many bytes. */
    method ReadString() returns (s: Option<Bytes>)
      requires Valid()
      modifies this
      ensures Valid()
      ensures match ReadPrefixed(old(Rest()))
              case None => s.None?
              case Some((b, n)) => s == Some(b) && Took(n)
    {
      ghost var all := Rest();
      var size := DecodeVarint32();
      if size.None? {
        return None;
      }
      if size.value <= bytesLeft {
        ghost var n := ReadVarint32(all).value.1;
        SliceOfSlice(source, old(state), old(bytesLeft), n, size.value);
        assert Rest()[..size.value] == source[state..state + size.value];
      }
      s := Read(size.value);
    }

    // ---------- unknown fields ----------

    /** `pb_skip_field`. */
    method Skip(wire: nat) returns (ok: bool)
      requires Valid()
      modifies this
      ensures Valid()
      ensures match SkipField(wire, old(Rest()))
              case None => !ok
              case Some(n) => ok && Took(n)
    {
      if wire == WT_VARINT {
        ok := SkipAVarint();
      } else if wire == WT_STRING {
        var s := ReadString();
        ok := s.Some?;
      } else if wire == WT_64BIT || wire == WT_32BIT {
        var b := Read(if wire == WT_64BIT then 8 else 4);
        ok := b.Some?;
      } else {
        return false;
      }
    }

    /** `pb_skip_varint`. */
    method SkipAVarint() returns (ok: bool)
      requires Valid()
      modifies this
      ensures Valid()
      ensures match SkipVarint(old(Rest()))
              case None => !ok
              case Some(n) => ok && Took(n)
    {
      ghost var all := Rest();
      ghost var n := 0;
      while true
        invariant Valid() && n <= |all| && state == old(state) + n && bytesLeft == |all| - n
        invariant match SkipVarint(all[n..])
                  case None => SkipVarint(all) == None
                  case Some(m) => SkipVarint(all) == Some(n + m)
        decreases bytesLeft
      {
        var byte := ReadByte();
        if byte.None? {
          return false;
        }
        assert all[n..][1..] == all[n + 1..] && byte.value == all[n];
        n := n + 1;
        if byte.value < 128 {
          return true;
        }
      }
    }
  }

  lemma SliceOfSlice<T>(s: seq<T>, from: nat, length: nat, n: nat, m: nat)
    requires from + length <= |s| && n + m <= length
    ensures s[from..from + length][n..n + m] == s[from + n..from + n + m]
  {
    var a, b := s[from..from + length][n..n + m], s[from + n..from + n + m];
    assert |a| == |b|;
    assert forall i :: 0 <= i < m ==> a[i] == b[i];
  }

  /** The digit shifted to its place, cut to 64 bits. */
  function AddDigit(result: nat, d: nat, unit: nat): nat {
    result + d * unit % TWO_64
  }

  /** `n` digits have been read. */
  ghost predicate SoFar(b: Bytes, n: nat, result: nat, unit: nat)
    requires n <= |b| && n < 10
  {
    Pending(b, 10, n, result, unit) && unit == Power128(n) && result < unit
  }

  lemma Started(b: Bytes)
    ensures SoFar(b, 0, 0, 1)
  {
    NothingRead(b, 10);
  }

  lemma DigitAdded(b: Bytes, n: nat, result: nat, unit: nat)
    requires n < |b| && n < 10 && SoFar(b, n, result, unit)
    ensures
      var sum := AddDigit(result, b[n] % 128, unit);
      if b[n] < 128 then
        ReadVarint(b, 10).Some? && ReadVarint(b, 10).value.1 == n + 1 && sum == ReadVarint(b, 10).value.0 % TWO_64
      else if n < 9 then SoFar(b, n + 1, sum, 128 * unit)
      else ReadVarint(b, 10) == None
  {
    hide ReadVarint, Pending, AddDigit;
    var d := b[n] % 128;
    NextPending(b, 10, n, result, unit);
    if n < 9 {
      DigitFits(result, unit, d, n);
    } else {
      Powers();
      TenthDigit(result, d);
      if b[n] >= 128 {
        ReadOut(b, 10, 10, result + unit * d, 128 * unit);
      }
    }
  }

  /** The digits of a varint do not overlap. */
  lemma DigitFits(result: nat, unit: nat, d: nat, n: nat)
    requires n < 9 && unit == Power128(n) && result < unit && d < 128
    ensures AddDigit(result, d, unit) == result + unit * d < 128 * unit
    ensures result + unit * d < TWO_64
  {
    Powers();
    PowerGrows(n + 1, 9);
    assert (127 - d) * unit >= 0;
  }

  /** Of the tenth only one bit is kept. */
  lemma TenthDigit(result: nat, d: nat)
    requires result < 0x8000_0000_0000_0000
    ensures AddDigit(result, d, 0x8000_0000_0000_0000) == (result + 0x8000_0000_0000_0000 * d) % TWO_64
  {
    var h, l := d / 2, d % 2;
    assert d == 2 * h + l;
    HighBits(h, l * 0x8000_0000_0000_0000);
    HighBits(h, result + l * 0x8000_0000_0000_0000);
  }

  lemma HighBits(h: nat, x: nat)
    requires x < TWO_64
    ensures (h * TWO_64 + x) % TWO_64 == x
  {
    assert (h * TWO_64 + x) / TWO_64 == h;
  }

  // ---------- values ----------

  method ReadFixed(stream: IStream, k: Kind) returns (d: Option<Datum>)
    requires stream.Valid() && (k.Fixed32? || k.Fixed64?)
    modifies stream
    ensures stream.Valid()
    ensures match DecodeDatum(k, Int(0), old(stream.Rest()))
            case None => d.None?
            case Some((v, n)) => d == Some(v) && stream.Took(n)
  {
    ghost var all := stream.Rest();
    var b := stream.Read(if k.Fixed32? then 4 else 8);
    if b.None? {
      return None;
    }
    if k.Fixed32? {
      assert DecodeFixed32(b.value) == DecodeFixed32(all);
      d := Some(Int(DecodeFixed32(b.value)));
    } else {
      assert b.value[4..] == all[4..8];
      assert DecodeFixed32(all[4..8]) == DecodeFixed32(all[4..]);
      d := Some(Int(DecodeFixed64(b.value)));
    }
  }

  method ReadInteger(stream: IStream, k: Kind) returns (d: Option<Datum>)
    requires stream.Valid() && (k.Boolean? || k.Signed? || k.Unsigned? || k.ZigZag?)
    modifies stream
    ensures stream.Valid()
    ensures match DecodeDatum(k, Int(0), old(stream.Rest()))
            case None => d.None?
            case Some((v, n)) => d == Some(v) && stream.Took(n)
  {
    hide ReadVarint, ReadVarint32;
    if k.Boolean? {
      var v := stream.DecodeVarint32();
      return if v.None? then None else Some(Int(if v.value != 0 then 1 else 0));
    }
    var v := stream.DecodeVarint();
    if v.None? {
      return None;
    }
    match k
    case Signed(size) => d := FromSigned(v.value, size);
    case Unsigned(size) => d := NarrowUnsigned(v.value, size);
    case ZigZag(size) => d := NarrowSigned(UnZigZag(v.value), size);
  }

  method ReadBytes(stream: IStream, k: Kind) returns (d: Option<Datum>)
    requires stream.Valid() && (k.ByteArray? || k.CString? || k.FixedBytes?)
    modifies stream
    ensures stream.Valid()
    ensures match DecodeDatum(k, Int(0), old(stream.Rest()))
            case None => d.None?
            case Some((v, n)) => d == Some(v) && stream.Took(n)
  {
    hide ReadPrefixed;
    var s := stream.ReadString();
    if s.None? {
      return None;
    }
    var size := |s.value|;
    match k
    case ByteArray(capacity) => d := if size + BYTES_HEADER > capacity then None else Some(Data(s.value));
    case CString(capacity) => d := if size + 1 > capacity then None else Some(Data(s.value + [0]));
    case FixedBytes(length) =>
      d := if size == 0 then Some(Data(Zeros(length))) else if size != length then None else Some(Data(s.value));
  }

  /** The table of field decoders. */
  method DecodeValue(stream: IStream, k: Kind, there: Datum) returns (d: Option<Datum>)
    requires stream.Valid() && (k.Submessage? ==> DistinctInside(k.fields))
    modifies stream
    ensures stream.Valid()
    ensures match DecodeDatum(k, there, old(stream.Rest()))
            case None => d.None?
            case Some((v, n)) => d == Some(v) && stream.Took(n)
    decreases k, 0
  {
    hide ReadPrefixed, DecodeNoInit, DistinctInside;
    if k.Boolean? || k.Signed? || k.Unsigned? || k.ZigZag? {
      d := ReadInteger(stream, k);
    } else if k.Fixed32? || k.Fixed64? {
      d := ReadFixed(stream, k);
    } else if k.Submessage? {
      var sub := stream.MakeSubstream();
      if sub.None? || !there.Struct? {
        return None;
      }
      var slots := DecodeMessage(sub.value, k.fields, there.slots);
      if slots.None? {
        return None;
      }
      stream.CloseSubstream(sub.value);
      return Some(Struct(slots.value));
    } else {
      d := ReadBytes(stream, k);
    }
  }

  // ---------- fields ----------

  /** The elements of a packed array, from position `count` on. */
  method DecodeElements(stream: IStream, k: Kind, there: seq<Datum>, start: nat)
    returns (r: Option<(seq<Datum>, nat)>)
    requires stream.Valid() && Packable(k)
    modifies stream
    ensures stream.Valid() && (r.Some? ==> stream.state + stream.bytesLeft == old(stream.state + stream.bytesLeft))
    ensures r == DecodePacked(k, old(stream.Rest()), there, start)
    decreases k, 1
  {
    hide DecodeDatum;
    var items, count: nat := there, start;
    while stream.bytesLeft > 0 && count < |items|
      invariant stream.Valid() && stream.state + stream.bytesLeft == old(stream.state + stream.bytesLeft)
      invariant |items| == |there|
      invariant DecodePacked(k, old(stream.Rest()), there, start) == DecodePacked(k, stream.Rest(), items, count)
      decreases stream.bytesLeft
    {
      ghost var rest := stream.Rest();
      var d := DecodeValue(stream, k, items[count]);
      if d.None? {
        return None;
      }
      ghost var n := DecodeDatum(k, items[count], rest).value.1;
      assert stream.Rest() == rest[n..];
      items := items[count := d.value];
      count := count + 1;
    }
    return if stream.bytesLeft > 0 then None else Some((items, count));
  }

  method DecodeArray(stream: IStream, f: Field, wire: nat, s: Slot, fixedSize: nat)
    returns (r: Option<(Slot, nat)>)
    requires stream.Valid() && DistinctField(f) && f.rule.Repeated? && s.Many?
    modifies stream
    ensures stream.Valid()
    ensures match DecodeField(f, wire, old(stream.Rest()), s, fixedSize)
            case None => r.None?
            case Some((s', size, n)) => r == Some((s', size)) && stream.Took(n)
    decreases f, 1
  {
    hide DecodeDatum, DecodePacked, ReadPrefixed, DistinctInside;
    var counted := f.rule.counted;
    var size := if counted then s.count else fixedSize;
    if wire == WT_STRING && Packable(f.kind) {
      var sub := stream.MakeSubstream();
      if sub.None? || |s.items| != f.rule.arraySize {
        return None;
      }
      var items := DecodeElements(sub.value, f.kind, s.items, size);
      if items.None? {
        return None;
      }
      stream.CloseSubstream(sub.value);
      var count := items.value.1;
      return Some((Many(if counted then count else s.count, items.value.0), if counted then fixedSize else count));
    }
    if size >= f.rule.arraySize || size >= |s.items| {
      return None;
    }
    var d := DecodeValue(stream, f.kind, Start(f.kind, s.items[size]));
    if d.None? {
      return None;
    }
    return Some((Many(if counted then size + 1 else s.count, s.items[size := d.value]),
                 if counted then fixedSize else size + 1));
  }

  /** `decode_static_field`. */
  method DecodeStaticField(stream: IStream, f: Field, wire: nat, s: Slot, fixedSize: nat)
    returns (r: Option<(Slot, nat)>)
    requires stream.Valid() && DistinctField(f)
    modifies stream
    ensures stream.Valid()
    ensures match DecodeField(f, wire, old(stream.Rest()), s, fixedSize)
            case None => r.None?
            case Some((s', size, n)) => r == Some((s', size)) && stream.Took(n)
    decreases f, 2
  {
    hide DecodeDatum, DistinctInside, Start;
    match (f.rule, s)
    case (Required, Plain(v)) =>
      var d := DecodeValue(stream, f.kind, v);
      return if d.None? then None else Some((Plain(d.value), fixedSize));
    case (Optional(hasFlag), Maybe(_, v)) =>
      if !hasFlag {
        return None;
      }
      var d := DecodeValue(stream, f.kind, v);
      return if d.None? then None else Some((Maybe(true, d.value), fixedSize));
    case (Optional(hasFlag), Plain(v)) =>
      if hasFlag {
        return None;
      }
      var d := DecodeValue(stream, f.kind, v);
      return if d.None? then None else Some((Plain(d.value), fixedSize));
    case (Oneof(_), Union(_, v)) =>
      var d := DecodeValue(stream, f.kind, Start(f.kind, v));
      return if d.None? then None else Some((Union(f.tag, d.value), fixedSize));
    case (Repeated(_, _), Many(_, _)) =>
      r := DecodeArray(stream, f, wire, s, fixedSize);
    case _ =>
      return None;
  }

  // ---------- messages ----------

  /** The bits of the required fields seen. */
  ghost predicate Bits(bits: seq<bool>, seen: set<nat>) {
    && |bits| == MAX_REQUIRED_FIELDS
    && forall k :: 0 <= k < |bits| ==> (bits[k] <==> k in seen)
  }

  /** Counts the required fields by going on to the end, and looks for a bit that is not set. */
  method RequiredSeen(iter: FieldIter, bits: array<bool>, ghost p: Progress) returns (all: bool)
    requires iter.Valid() && Bits(bits[..], p.seen)
    modifies iter
    ensures all == AllSeen(iter.fields, p)
  {
    var count: nat, last: nat := iter.requiredIndex, iter.pos;
    var more := iter.Next();
    while more
      invariant iter.Valid()
      invariant more ==> iter.pos == last + 1 < |iter.fields|
      invariant !more ==> last + 1 >= |iter.fields|
      invariant last <= |iter.fields| && (iter.fields != [] ==> last < |iter.fields|)
      invariant count == RequiredBefore(iter.fields, last)
      decreases if more then |iter.fields| - last else 0
    {
      count, last := iter.requiredIndex, iter.pos;
      more := iter.Next();
    }
    if iter.fields != [] && iter.fields[last].rule.Required? {
      count := count + 1;
    }
    if count > MAX_REQUIRED_FIELDS {
      count := MAX_REQUIRED_FIELDS;
    }
    var i := 0;
    while i < count
      invariant i <= count && forall k :: 0 <= k < i ==> k in p.seen
    {
      if !bits[i] {
        return false;
      }
      i := i + 1;
    }
    return true;
  }

  /** What the locals of the loop hold. */
  ghost predicate Locals(p: Progress, slots: seq<Slot>, fixedField: Option<nat>, fixedSize: nat, bits: seq<bool>) {
    && p.slots == slots
    && p.fixedField == fixedField
    && p.fixedSize == fixedSize
    && Bits(bits, p.seen)
  }

  /** One field after its tag. */
  method DecodeOne(stream: IStream, iter: FieldIter, bits: array<bool>, tag: nat, wire: nat, slots: seq<Slot>,
                   fixedField: Option<nat>, fixedSize: nat, ghost p: Progress)
    returns (ok: bool, slots': seq<Slot>, fixedField': Option<nat>, fixedSize': nat, ghost q: Progress)
    requires stream.Valid() && iter.Valid() && DistinctInside(iter.fields) && Shape(iter.fields, p)
    requires Locals(p, slots, fixedField, fixedSize, bits[..])
    modifies stream, iter, bits
    ensures stream.Valid() && iter.Valid()
    ensures match Step(iter.fields, tag, wire, old(stream.Rest()), p)
            case None => !ok
            case Some((after, n)) =>
              ok && q == after && stream.Took(n) && Locals(q, slots', fixedField', fixedSize', bits[..])
    decreases iter.fields, 0
  {
    hide DecodeField, SkipField, Find;
    slots', fixedField', fixedSize', q := slots, fixedField, fixedSize, p;
    var found := iter.FindField(tag);
    if !found {
      ok := stream.Skip(wire);
      return;
    }
    var i, f := iter.pos, iter.fields[iter.pos];
    if f.rule.Repeated? && !f.rule.counted && fixedField != Some(i) {
      if fixedField.Some? && fixedSize != iter.fields[fixedField.value].rule.arraySize {
        return false, slots', fixedField', fixedSize', q;
      }
      fixedField', fixedSize' := Some(i), 0;
    }
    if f.rule.Required? && iter.requiredIndex < MAX_REQUIRED_FIELDS {
      bits[iter.requiredIndex] := true;
    }
    assert fixedSize' == StartSize(iter.fields, i, p);
    var r := DecodeStaticField(stream, f, wire, slots[iter.place], fixedSize');
    if r.None? {
      return false, slots', fixedField', fixedSize', q;
    }
    q := After(iter.fields, i, p, r.value.0, r.value.1);
    slots', fixedSize', ok := slots[iter.place := r.value.0], r.value.1, true;
  }

  lemma LoopNext(fields: seq<Field>, b: Bytes, p: Progress)
    requires Shape(fields, p)
    ensures b == [] ==> Loop(fields, b, p) == Some(p)
    ensures
      b != [] ==>
        var key := ReadVarint32(b);
        if key.None? then Loop(fields, b, p) == None
        else if key.value.0 == 0 then Loop(fields, b, p) == Some(p)
        else
          var rest := b[key.value.1..];
          var step := Step(fields, key.value.0 / 8, key.value.0 % 8, rest, p);
          Loop(fields, b, p) == if step.None? then None else Loop(fields, rest[step.value.1..], step.value.0)
  {
    hide Step, ReadVarint32;
  }

  /** The loop of `pb_decode_noinit`. */
  method DecodeFields(stream: IStream, iter: FieldIter, bits: array<bool>, there: seq<Slot>, ghost start: Progress)
    returns (ok: bool, slots: seq<Slot>, fixedField: Option<nat>, fixedSize: nat, ghost p: Progress)
    requires stream.Valid() && iter.Valid() && DistinctInside(iter.fields) && Shape(iter.fields, start)
    requires Locals(start, there, None, 0, bits[..])
    modifies stream, iter, bits
    ensures stream.Valid() && iter.Valid() && Shape(iter.fields, p)
    ensures ok ==> stream.state + stream.bytesLeft == old(stream.state + stream.bytesLeft)
    ensures ok ==> Locals(p, slots, fixedField, fixedSize, bits[..])
    ensures Loop(iter.fields, old(stream.Rest()), start) == if ok then Some(p) else None
    decreases iter.fields, 1
  {
    hide Step, ReadVarint32, Loop, Shape, Bits, DistinctInside;
    ok, slots, fixedField, fixedSize, p := true, there, None, 0, start;
    ghost var all := stream.Rest();
    while stream.bytesLeft > 0
      invariant stream.Valid() && stream.state + stream.bytesLeft == old(stream.state + stream.bytesLeft)
      invariant ok && iter.Valid() && Shape(iter.fields, start) && Shape(iter.fields, p)
      invariant Locals(p, slots, fixedField, fixedSize, bits[..])
      invariant Loop(iter.fields, all, start) == Loop(iter.fields, stream.Rest(), p)
      decreases stream.bytesLeft
    {
      ghost var rest, before := stream.Rest(), p;
      LoopNext(iter.fields, rest, p);
      var key := stream.DecodeVarint32();
      if key.None? {
        ok := false;
        return;
      }
      if key.value == 0 {
        return;
      }
      ghost var after := stream.Rest();
      assert after == rest[ReadVarint32(rest).value.1..];
      ok, slots, fixedField, fixedSize, p :=
        DecodeOne(stream, iter, bits, key.value / 8, key.value % 8, slots, fixedField, fixedSize, p);
      if !ok {
        p := before;
        return;
      }
      assert stream.Rest() == after[Step(iter.fields, key.value / 8, key.value % 8, after, before).value.1..];
    }
    LoopNext(iter.fields, stream.Rest(), p);
  }

  /** `pb_decode_noinit`. */
  method DecodeMessage(stream: IStream, fields: seq<Field>, there: seq<Slot>) returns (slots: Option<seq<Slot>>)
    requires stream.Valid() && DistinctInside(fields)
    modifies stream
    ensures stream.Valid() && (slots.Some? ==> stream.state + stream.bytesLeft == old(stream.state + stream.bytesLeft))
    ensures slots == DecodeNoInit(fields, old(stream.Rest()), there)
    decreases fields, 2
  {
    hide Loop, AllSeen, DistinctInside;
    if |there| != Members(fields, |fields|) {
      return None;
    }
    var iter := new FieldIter(fields);
    var bits := new bool[MAX_REQUIRED_FIELDS](_ => false);
    ghost var start := Progress(there, None, 0, {});
    assert Locals(start, there, None, 0, bits[..]);
    var ok, current, fixedField, fixedSize, p := DecodeFields(stream, iter, bits, there, start);
    if !ok || (fixedField.Some? && fixedSize != fields[fixedField.value].rule.arraySize) {
      return None;
    }
    var seen := RequiredSeen(iter, bits, p);
    return if seen then Some(current) else None;
  }

  /** `pb_decode`. */
  method DecodeFresh(stream: IStream, fields: seq<Field>) returns (slots: Option<seq<Slot>>)
    requires stream.Valid() && DistinctInside(fields)
    modifies stream
    ensures stream.Valid()
    ensures slots == Decode(fields, old(stream.Rest()))
  {
    slots := DecodeMessage(stream, fields, Defaults(fields, |fields|));
  }
}
