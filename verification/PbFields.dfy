/** Message descriptors of the Protocol Buffers codec and the structures they describe (nanopb/pb.h, lines 142-400;
    nanopb/pb_common.c, lines 8-97; nanopb/pb_decode.c, lines 836-917).

    Sizes are those of a build with 32-bit `pb_size_t` and 64-bit `size_t`.  All fields are static: no callbacks,
    pointers or extensions. */
module PbFields {
  import opened Coding
  import opened DbFormat

  /** The type of one value (LTYPE), with the size of its storage where the type leaves it open. */
  datatype Kind =
    | Boolean
    | Signed(size: nat)
    | Unsigned(size: nat)
    | ZigZag(size: nat)
    | Fixed32
    | Fixed64
    | ByteArray(size: nat)
    | CString(size: nat)
    | Submessage(fields: seq<Field>)
    | FixedBytes(size: nat)

  /** How often a field occurs (HTYPE). `hasFlag`: there is a has_ member; without it the field is present when it is
      not zero. `counted`: there is a _count member; without it every element is always there. `joined`: the member
      shares its union with the field before it. */
  datatype Rule =
    | Required
    | Optional(hasFlag: bool)
    | Repeated(arraySize: nat, counted: bool)
    | Oneof(joined: bool)

  datatype Field = Field(tag: nat, rule: Rule, kind: Kind, default: Option<Datum>)

  /** One value in memory. The data of a CString is its buffer; of a ByteArray, the bytes in use. */
  datatype Datum =
    | Int(n: int)
    | Data(bytes: Bytes)
    | Struct(slots: seq<Slot>)

  /** One member of the structure with its has_, _count or which_ companion. */
  datatype Slot =
    | Plain(v: Datum)
    | Maybe(has: bool, v: Datum)
    | Many(count: nat, items: seq<Datum>)
    | Union(which: nat, v: Datum)

  /** `offsetof(pb_bytes_array_t, bytes)`. */
  const BYTES_HEADER := 4
  const PB_SIZE_MAX := 0xFFFF_FFFF
  const MAX_REQUIRED_FIELDS := 64

  /** The kinds up to PB_LTYPE_LAST_PACKABLE. */
  predicate Packable(k: Kind) {
    k.Boolean? || k.Signed? || k.Unsigned? || k.ZigZag? || k.Fixed32? || k.Fixed64?
  }

  // ---------- where fields are ----------

  predicate Joined(fields: seq<Field>, i: nat)
    requires i < |fields|
  {
    i > 0 && fields[i - 1].rule.Oneof? && fields[i].rule.Oneof? && fields[i].rule.joined
  }

  /** The number of structure members that the first `n` fields use. */
  function Members(fields: seq<Field>, n: nat): (m: nat)
    requires n <= |fields|
    ensures n > 0 ==> m > 0
    ensures m <= n
  {
    if n == 0 then 0
    else Members(fields, n - 1) + if n > 1 && Joined(fields, n - 1) then 0 else 1
  }

  /** The member that holds field `i`. */
  function Place(fields: seq<Field>, i: nat): (place: nat)
    requires i < |fields|
    ensures place < Members(fields, |fields|)
  {
    MembersGrow(fields, i + 1, |fields|);
    Members(fields, i + 1) - 1
  }

  lemma {:induction false} MembersGrow(fields: seq<Field>, i: nat, n: nat)
    requires i <= n <= |fields|
    ensures Members(fields, i) <= Members(fields, n)
    decreases n
  {
    if i < n {
      MembersGrow(fields, i, n - 1);
    }
  }

  function RequiredBefore(fields: seq<Field>, i: nat): (r: nat)
    requires i <= |fields|
    ensures r <= i
  {
    if i == 0 then 0 else RequiredBefore(fields, i - 1) + if fields[i - 1].rule.Required? then 1 else 0
  }

  /** The field with a given number, looked up from the beginning. */
  function Find(fields: seq<Field>, tag: nat, from: nat): (r: Option<nat>)
    requires from <= |fields|
    ensures r.Some? ==> from <= r.value < |fields| && fields[r.value].tag == tag
    ensures r.None? ==> forall i :: from <= i < |fields| ==> fields[i].tag != tag
    decreases |fields| - from
  {
    if from == |fields| then None
    else if fields[from].tag == tag then Some(from)
    else Find(fields, tag, from + 1)
  }

  predicate DistinctTags(fields: seq<Field>) {
    forall i, j :: 0 <= i < j < |fields| ==> fields[i].tag != fields[j].tag
  }

  /** Also in the messages inside. */
  predicate DistinctInside(fields: seq<Field>)
    decreases fields
  {
    && DistinctTags(fields)
    && forall i :: 0 <= i < |fields| ==> DistinctField(fields[i])
  }

  predicate DistinctField(f: Field)
    decreases f
  {
    f.kind.Submessage? ==> DistinctInside(f.kind.fields)
  }

  /** `pb_field_iter_t`. */
  class FieldIter {
    const fields: seq<Field>
    var pos: nat
    var place: nat
    var requiredIndex: nat

    ghost predicate Valid()
      reads this
    {
      && pos <= |fields|
      && requiredIndex == RequiredBefore(fields, pos)
      && (fields != [] ==> pos < |fields| && place == Place(fields, pos))
    }

    constructor (fields: seq<Field>)
      ensures Valid() && this.fields == fields && pos == 0
    {
      this.fields := fields;
      pos := 0;
      place := 0;
      requiredIndex := 0;
      new;
      assert fields != [] ==> Members(fields, 1) == Members(fields, 0) + 1;
    }

    /** Returns false when it wraps to the beginning. */
    method Next() returns (more: bool)
      requires Valid()
      modifies this
      ensures Valid()
      ensures more <==> old(pos) + 1 < |fields|
      ensures pos == if more then old(pos) + 1 else 0
    {
      if fields == [] {
        return false;
      }
      var previous := fields[pos];
      if pos + 1 == |fields| {
        assert Members(fields, 1) == Members(fields, 0) + 1;
        pos := 0;
        place := 0;
        requiredIndex := 0;
        return false;
      }
      pos := pos + 1;
      if previous.rule.Oneof? && fields[pos].rule.Oneof? && fields[pos].rule.joined {
        assert Members(fields, pos + 1) == Members(fields, pos);
        return true;
      }
      if previous.rule.Required? {
        requiredIndex := requiredIndex + 1;
      }
      assert Members(fields, pos + 1) == Members(fields, pos) + 1;
      place := place + 1;
      return true;
    }

    /** Searches circularly from the current position, and comes back to it when there is no such field. */
    method FindField(tag: nat) returns (found: bool)
      requires Valid() && DistinctTags(fields)
      modifies this
      ensures Valid()
      ensures found == Find(fields, tag, 0).Some?
      ensures pos == if found then Find(fields, tag, 0).value else old(pos)
    {
      if fields == [] {
        return false;
      }
      var start := pos;
      ghost var seen := 0;
      while true
        invariant Valid()
        invariant seen < |fields|
        invariant pos == if start + seen < |fields| then start + seen else start + seen - |fields|
        invariant start + seen <= |fields| ==> forall i :: start <= i < start + seen ==> fields[i].tag != tag
        invariant start + seen >= |fields| ==>
                    && (forall i :: start <= i < |fields| ==> fields[i].tag != tag)
                    && (forall i :: 0 <= i < start + seen - |fields| ==> fields[i].tag != tag)
        decreases |fields| - seen
      {
        if fields[pos].tag == tag {
          assert Find(fields, tag, 0) == Some(pos);
          return true;
        }
        var _ := Next();
        seen := seen + 1;
        if pos == start {
          break;
        }
      }
      assert forall i :: 0 <= i < |fields| ==> fields[i].tag != tag;
      found := false;
    }
  }

  // ---------- default values ----------

  function Zeros(n: nat): (r: Bytes)
    ensures |r| == n
  {
    if n == 0 then [] else Zeros(n - 1) + [0]
  }

  /** Storage nobody has written to. */
  function Uninitialised(n: nat): (r: seq<Datum>)
    ensures |r| == n
  {
    if n == 0 then [] else Uninitialised(n - 1) + [Int(0)]
  }

  /** `memset(0)`. */
  function Zero(k: Kind): Datum
    requires !k.Submessage?
  {
    match k
    case ByteArray(_) => Data([])
    case CString(size) => Data(Zeros(size))
    case FixedBytes(size) => Data(Zeros(size))
    case _ => Int(0)
  }

  function DefaultDatum(f: Field): Datum
    decreases f, 0
  {
    match f.kind
    case Submessage(fields) => Struct(Defaults(fields, |fields|))
    case _ => if f.default.Some? then f.default.value else Zero(f.kind)
  }

  /** Array counts and which_ members become zero, and the storage they govern is left alone. */
  function DefaultSlot(f: Field): Slot
    decreases f, 1
  {
    match f.rule
    case Required => Plain(DefaultDatum(f))
    case Optional(hasFlag) => if hasFlag then Maybe(false, DefaultDatum(f)) else Plain(DefaultDatum(f))
    case Repeated(n, _) => Many(0, Uninitialised(n))
    case Oneof(_) => Union(0, Int(0))
  }

  /** The members of the first `n` fields after `pb_message_set_to_defaults`. */
  function Defaults(fields: seq<Field>, n: nat): (r: seq<Slot>)
    requires n <= |fields|
    ensures |r| == Members(fields, n)
    decreases fields, n
  {
    if n == 0 then []
    else if n > 1 && Joined(fields, n - 1) then Defaults(fields, n - 1)
    else Defaults(fields, n - 1) + [DefaultSlot(fields[n - 1])]
  }

  /** Fields that share a member are members of one oneof. */
  lemma {:induction false} SharedPlace(fields: seq<Field>, i: nat, j: nat)
    requires i < j < |fields| && Place(fields, i) == Place(fields, j)
    ensures fields[i].rule.Oneof? && fields[j].rule.Oneof?
    decreases j
  {
    MembersGrow(fields, i + 1, j);
    if i + 1 < j {
      SharedPlace(fields, i, j - 1);
    }
  }

  lemma {:induction false} DefaultAt(fields: seq<Field>, n: nat, i: nat)
    requires i < n <= |fields|
    ensures Place(fields, i) < |Defaults(fields, n)|
    ensures Defaults(fields, n)[Place(fields, i)] == DefaultSlot(fields[i])
    decreases n
  {
    MembersGrow(fields, i + 1, n);
    if i + 1 < n {
      DefaultAt(fields, n - 1, i);
    } else if n > 1 && Joined(fields, n - 1) {
      DefaultAt(fields, n - 1, i - 1);
    }
  }

  // ---------- memory laid out by a descriptor ----------

  /** The storage has the type that the descriptor says; `pb_size_t` bounds field numbers. */
  predicate DatumShaped(k: Kind, d: Datum)
    decreases k, 0
  {
    match k
    case ByteArray(_) => d.Data?
    case CString(_) => d.Data?
    case FixedBytes(size) => d.Data? && |d.bytes| == size
    case Submessage(fields) => d.Struct? && Shaped(fields, d.slots)
    case ZigZag(_) => d.Int? && -0x8000_0000_0000_0000 <= d.n < 0x8000_0000_0000_0000
    case _ => d.Int?
  }

  predicate SlotShaped(f: Field, s: Slot)
    decreases f
  {
    && f.tag <= PB_SIZE_MAX
    && match f.rule
       case Required => s.Plain? && DatumShaped(f.kind, s.v)
       case Optional(hasFlag) => (if hasFlag then s.Maybe? else s.Plain?) && DatumShaped(f.kind, s.v)
       case Repeated(n, _) =>
         s.Many? && |s.items| == n && forall k :: 0 <= k < n ==> DatumShaped(f.kind, s.items[k])
       case Oneof(_) => s.Union? && (s.which == f.tag ==> DatumShaped(f.kind, s.v))
  }

  predicate Shaped(fields: seq<Field>, slots: seq<Slot>)
    decreases fields
  {
    && |slots| == Members(fields, |fields|)
    && forall i :: 0 <= i < |fields| ==> SlotShaped(fields[i], slots[Place(fields, i)])
  }
}
