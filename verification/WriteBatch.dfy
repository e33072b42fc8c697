/** Batches of updates as bytes (db/write_batch.cc, lines 27-148): a 64-bit sequence number, a 32-bit count, and the
    records. */
module WriteBatch {
  import opened Coding
  import opened DbFormat

  datatype Record = Put(key: Bytes, val: Bytes) | Delete(key: Bytes)

  const HEADER := 12
  const TYPE_DELETION: Byte := 0
  const TYPE_VALUE: Byte := 1

  function RecordImage(r: Record): (b: Bytes)
    ensures |b| > 0
  {
    match r
    case Put(key, val) => [TYPE_VALUE] + PutLengthPrefixed(key) + PutLengthPrefixed(val)
    case Delete(key) => [TYPE_DELETION] + PutLengthPrefixed(key)
  }

  function Image(records: seq<Record>): Bytes {
    if records == [] then [] else Image(records[..|records| - 1]) + RecordImage(records[|records| - 1])
  }

  function Header(sn: Word64, count: nat): (b: Bytes)
    ensures |b| == HEADER
  {
    EncodeFixed64(sn) + EncodeFixed32(count % TWO_32)
  }

  /** Lengths are 32-bit numbers. */
  predicate Encodable(r: Record) {
    |r.key| < TWO_32 && (r.Put? ==> |r.val| < TWO_32)
  }

  predicate AllEncodable(records: seq<Record>) {
    forall i :: 0 <= i < |records| ==> Encodable(records[i])
  }

  // ---------- reading ----------

  datatype Status = Ok | TooSmall | BadPut | BadDelete | UnknownTag | WrongCount

  /** The record at the beginning of `b` and the bytes it takes. */
  function ReadRecord(b: Bytes): (r: (Option<(Record, nat)>, Status))
    requires b != []
    ensures r.0.Some? <==> r.1 == Ok
    ensures r.0.Some? ==> 1 <= r.0.value.1 <= |b|
  {
    if b[0] == TYPE_VALUE then
      match GetLengthPrefixed(b[1..])
      case None => (None, BadPut)
      case Some((key, n)) =>
        match GetLengthPrefixed(b[1 + n..])
        case None => (None, BadPut)
        case Some((val, m)) => (Some((Put(key, val), 1 + n + m)), Ok)
    else if b[0] == TYPE_DELETION then
      match GetLengthPrefixed(b[1..])
      case None => (None, BadDelete)
      case Some((key, n)) => (Some((Delete(key), 1 + n)), Ok)
    else (None, UnknownTag)
  }

  /** All records, or those before the first that cannot be read. */
  function ReadRecords(b: Bytes): (seq<Record>, Status)
    decreases |b|
  {
    if b == [] then ([], Ok)
    else
      match ReadRecord(b)
      case (None, status) => ([], status)
      case (Some((r, n)), _) => var (rest, status) := ReadRecords(b[n..]); ([r] + rest, status)
  }

  /** What `Iterate` passes to its handler, and what it returns. */
  function Iterated(rep: Bytes): (seq<Record>, Status) {
    if |rep| < HEADER then ([], TooSmall)
    else
      var (records, status) := ReadRecords(rep[HEADER..]);
      if status != Ok then (records, status)
      else (records, if |records| == DecodeFixed32(rep[8..]) then Ok else WrongCount)
  }

  lemma RecordRoundTrip(r: Record, rest: Bytes)
    requires Encodable(r)
    ensures ReadRecord(RecordImage(r) + rest) == (Some((r, |RecordImage(r)|)), Ok)
  {
    hide PutLengthPrefixed, GetLengthPrefixed;
    var b := RecordImage(r) + rest;
    var k := PutLengthPrefixed(r.key);
    match r
    case Put(key, val) =>
      var v := PutLengthPrefixed(val);
      assert b[1..] == k + (v + rest);
      LengthPrefixedRoundTrip(key, v + rest);
      assert b[1 + |k|..] == v + rest;
      LengthPrefixedRoundTrip(val, rest);
    case Delete(key) =>
      assert b[1..] == k + rest;
      LengthPrefixedRoundTrip(key, rest);
  }

  lemma {:induction false} ImageFirst(records: seq<Record>)
    requires records != []
    ensures Image(records) == RecordImage(records[0]) + Image(records[1..])
    decreases |records|
  {
    hide RecordImage;
    if |records| > 1 {
      var front, rest, last := records[..|records| - 1], records[1..], RecordImage(records[|records| - 1]);
      ImageFirst(front);
      assert front[1..] == rest[..|rest| - 1];
      assert RecordImage(records[0]) + Image(front[1..]) + last == RecordImage(records[0]) + (Image(front[1..]) + last);
    }
  }

  lemma {:induction false} RecordsRoundTrip(records: seq<Record>)
    requires AllEncodable(records)
    ensures ReadRecords(Image(records)) == (records, Ok)
  {
    hide ReadRecord, RecordImage, Encodable;
    if records != [] {
      ImageFirst(records);
      var first, rest := RecordImage(records[0]), Image(records[1..]);
      RecordRoundTrip(records[0], rest);
      assert (first + rest)[|first|..] == rest;
      RecordsRoundTrip(records[1..]);
      assert ReadRecords(first + rest) == ([records[0]] + records[1..], Ok);
      assert [records[0]] + records[1..] == records;
    }
  }

  lemma HeaderReads(sn: Word64, count: nat, rest: Bytes)
    requires count < TWO_32
    ensures
      var rep := Header(sn, count) + rest;
      && rep[HEADER..] == rest && rep[8..] == EncodeFixed32(count) + rest
      && DecodeFixed32(rep[8..]) == count && DecodeFixed64(rep) == sn
  {
    hide EncodeFixed32, EncodeFixed64, DecodeFixed32, DecodeFixed64;
    var rep, number := Header(sn, count) + rest, EncodeFixed32(count);
    assert rep == EncodeFixed64(sn) + (number + rest);
    assert rep[8..] == number + rest;
    Fixed32RoundTrip(count, rest);
    Fixed64RoundTrip(sn, number + rest);
  }

  /** Iterating over a batch gives back what was put into it. */
  lemma IteratesBack(sn: Word64, records: seq<Record>)
    requires AllEncodable(records) && |records| < TWO_32
    ensures Iterated(Header(sn, |records|) + Image(records)) == (records, Ok)
    ensures DecodeFixed64(Header(sn, |records|) + Image(records)) == sn
  {
    hide Header, DecodeFixed32, DecodeFixed64, ReadRecords, Image;
    HeaderReads(sn, |records|, Image(records));
    RecordsRoundTrip(records);
  }

  // ---------- malformed batches ----------

  /** A record of which bytes are missing. */
  lemma RecordCut(r: Record, k: nat)
    requires Encodable(r) && 0 < k < |RecordImage(r)|
    ensures ReadRecord(RecordImage(r)[..k]) == (None, if r.Put? then BadPut else BadDelete)
  {
    hide PutLengthPrefixed, GetLengthPrefixed;
    var key := PutLengthPrefixed(r.key);
    if k < 1 + |key| {
      assert RecordImage(r)[..k][1..] == key[..k - 1];
      LengthPrefixedCut(r.key, k - 1);
    } else {
      ValueCut(r.key, r.val, k - 1 - |key|);
      assert RecordImage(r)[..k] == [TYPE_VALUE] + (key + PutLengthPrefixed(r.val)[..k - 1 - |key|]);
    }
  }

  lemma ValueCut(key: Bytes, val: Bytes, k: nat)
    requires |key| < TWO_32 && |val| < TWO_32 && k < |PutLengthPrefixed(val)|
    ensures ReadRecord([TYPE_VALUE] + (PutLengthPrefixed(key) + PutLengthPrefixed(val)[..k])) == (None, BadPut)
  {
    hide PutLengthPrefixed, GetLengthPrefixed;
    var b, later := PutLengthPrefixed(key), PutLengthPrefixed(val)[..k];
    LengthPrefixedRoundTrip(key, later);
    LengthPrefixedCut(val, k);
    var all := [TYPE_VALUE] + (b + later);
    assert all[1..] == b + later && all[1 + |b|..] == later;
  }

  lemma {:induction false} RecordsThen(records: seq<Record>, rest: Bytes)
    requires AllEncodable(records)
    ensures
      var (more, status) := ReadRecords(rest);
      ReadRecords(Image(records) + rest) == (records + more, status)
  {
    hide ReadRecord, RecordImage, Encodable;
    if records == [] {
      assert [] + rest == rest && records + ReadRecords(rest).0 == ReadRecords(rest).0;
    } else {
      ImageFirst(records);
      var first, later := RecordImage(records[0]), Image(records[1..]) + rest;
      assert Image(records) + rest == first + later;
      RecordRoundTrip(records[0], later);
      assert (first + later)[|first|..] == later;
      RecordsThen(records[1..], rest);
      assert [records[0]] + (records[1..] + ReadRecords(rest).0) == records + ReadRecords(rest).0;
    }
  }

  /** Of a malformed batch the records before the flaw are handed out, and the flaw is named: too short for a header, a
      record cut off, a type that is neither 0 nor 1, or a count that is not the number of records. */
  lemma IterateFlaws(sn: Word64, count: Word, records: seq<Record>, r: Record, k: nat, tag: Byte, rest: Bytes)
    requires AllEncodable(records) && Encodable(r) && 0 < k < |RecordImage(r)| && tag > 1
    ensures forall rep: Bytes :: |rep| < 12 ==> Iterated(rep) == ([], TooSmall)
    ensures Iterated(Header(sn, count) + Image(records)) == (records, if |records| == count then Ok else WrongCount)
    ensures Iterated(Header(sn, count) + (Image(records) + RecordImage(r)[..k])) ==
            (records, if r.Put? then BadPut else BadDelete)
    ensures Iterated(Header(sn, count) + (Image(records) + ([tag] + rest))) == (records, UnknownTag)
  {
    hide Header, DecodeFixed32, ReadRecord, Image, RecordImage;
    HeaderReads(sn, count, Image(records));
    RecordsRoundTrip(records);
    var cut := RecordImage(r)[..k];
    RecordCut(r, k);
    RecordsThen(records, cut);
    assert ReadRecords(cut).0 == [] && records + [] == records;
    HeaderReads(sn, count, Image(records) + cut);
    var unknown := [tag] + rest;
    UnknownRecord(tag, rest);
    RecordsThen(records, unknown);
    assert ReadRecords(unknown).0 == [];
    HeaderReads(sn, count, Image(records) + unknown);
  }

  lemma UnknownRecord(tag: Byte, rest: Bytes)
    requires tag > 1
    ensures ReadRecord([tag] + rest) == (None, UnknownTag)
  {
  }

  lemma {:induction false} ImageConcat(a: seq<Record>, b: seq<Record>)
    ensures Image(a + b) == Image(a) + Image(b)
    decreases |b|
  {
    hide RecordImage;
    if b == [] {
      assert a + b == a;
    } else {
      var n := |b| - 1;
      assert (a + b)[..|a + b| - 1] == a + b[..n];
      ImageConcat(a, b[..n]);
      assert Image(a) + (Image(b[..n]) + RecordImage(b[n])) == Image(a) + Image(b[..n]) + RecordImage(b[n]);
    }
  }

  /** Records with consecutive sequence numbers, as they go into the memtable. */
  function Numbered(sn: nat, records: seq<Record>): (r: seq<(nat, Record)>)
    ensures |r| == |records|
  {
    seq(|records|, i requires 0 <= i < |records| => (sn + i, records[i]))
  }

  class WriteBatch {
    var rep: Bytes

    /** The batch holds these records, numbered from `sn`. */
    ghost predicate Holds(sn: Word64, records: seq<Record>)
      reads this
    {
      && rep == Header(sn, |records|) + Image(records)
      && |records| < TWO_32
      && AllEncodable(records)
    }

    constructor ()
      ensures Holds(0, [])
    {
      rep := [0, 0, 0, 0, 0, 0, 0, 0, 0, 0, 0, 0];
    }

    method Clear()
      modifies this
      ensures Holds(0, [])
    {
      rep := [0, 0, 0, 0, 0, 0, 0, 0, 0, 0, 0, 0];
    }

    /** What the header and the rest of a batch are. */
    lemma Parts(sn: Word64, records: seq<Record>)
      requires Holds(sn, records)
      ensures |rep| >= HEADER && rep[..8] == EncodeFixed64(sn) && rep[8..12] == EncodeFixed32(|records|)
      ensures rep[12..] == Image(records) && DecodeFixed32(rep[8..]) == |records| && DecodeFixed64(rep) == sn
    {
      hide EncodeFixed32, EncodeFixed64, DecodeFixed32, DecodeFixed64, ReadRecords, Image, Encodable;
      HeaderReads(sn, |records|, Image(records));
      assert rep[..8] == EncodeFixed64(sn);
    }

    method Count(ghost sn: Word64, ghost records: seq<Record>) returns (n: nat)
      requires Holds(sn, records)
      ensures n == |records|
    {
      Parts(sn, records);
      n := DecodeFixed32(rep[8..]);
    }

    method Sequence(ghost sn: Word64, ghost records: seq<Record>) returns (s: Word64)
      requires Holds(sn, records)
      ensures s == sn
    {
      Parts(sn, records);
      s := DecodeFixed64(rep);
    }

    method SetSequence(s: Word64, ghost sn: Word64, ghost records: seq<Record>)
      requires Holds(sn, records)
      modifies this
      ensures Holds(s, records)
    {
      hide EncodeFixed32, EncodeFixed64, Image, Encodable;
      Parts(sn, records);
      rep := EncodeFixed64(s) + rep[8..];
      assert rep == EncodeFixed64(s) + EncodeFixed32(|records|) + Image(records);
    }

    /** `SetCount`, and `more` at the end. */
    method Extend(n: nat, more: Bytes, ghost sn: Word64, ghost records: seq<Record>, ghost added: seq<Record>)
      requires Holds(sn, records) && n == |records| + |added| < TWO_32
      requires AllEncodable(added) && more == Image(added)
      modifies this
      ensures Holds(sn, records + added) && |rep| == |old(rep)| + |more|
    {
      hide EncodeFixed32, EncodeFixed64, Image, Encodable;
      Parts(sn, records);
      ImageConcat(records, added);
      rep := rep[..8] + EncodeFixed32(n) + rep[12..];
      rep := rep + more;
      assert rep == Header(sn, n) + (Image(records) + Image(added));
    }

    method Put(key: Bytes, val: Bytes, ghost sn: Word64, ghost records: seq<Record>)
      requires Holds(sn, records) && |records| + 1 < TWO_32 && |key| < TWO_32 && |val| < TWO_32
      modifies this
      ensures Holds(sn, records + [Record.Put(key, val)])
    {
      var n := Count(sn, records);
      ghost var r := Record.Put(key, val);
      assert Image([r]) == Image([]) + RecordImage(r);
      Extend(n + 1, [TYPE_VALUE] + PutLengthPrefixed(key) + PutLengthPrefixed(val), sn, records, [r]);
    }

    method Delete(key: Bytes, ghost sn: Word64, ghost records: seq<Record>)
      requires Holds(sn, records) && |records| + 1 < TWO_32 && |key| < TWO_32
      modifies this
      ensures Holds(sn, records + [Record.Delete(key)])
    {
      var n := Count(sn, records);
      ghost var r := Record.Delete(key);
      assert Image([r]) == Image([]) + RecordImage(r);
      Extend(n + 1, [TYPE_DELETION] + PutLengthPrefixed(key), sn, records, [r]);
    }

    method Append(source: WriteBatch, ghost sn: Word64, ghost records: seq<Record>, ghost sn': Word64,
                  ghost added: seq<Record>)
      requires Holds(sn, records) && source.Holds(sn', added) && |records| + |added| < TWO_32
      modifies this
      ensures Holds(sn, records + added) && |rep| == old(|rep| + |source.rep|) - HEADER
    {
      source.Parts(sn', added);
      var n := Count(sn, records);
      var m := source.Count(sn', added);
      Extend(n + m, source.rep[HEADER..], sn, records, added);
    }

    /** Whatever the bytes are. */
    method Iterate() returns (handled: seq<Record>, status: Status)
      ensures (handled, status) == Iterated(rep)
    {
      handled := [];
      if |rep| < HEADER {
        return [], TooSmall;
      }
      var input := rep[HEADER..];
      var found := 0;
      ghost var all := ReadRecords(input);
      assert [] + all.0 == all.0;
      while input != []
        invariant found == |handled|
        invariant all == (handled + ReadRecords(input).0, ReadRecords(input).1)
        decreases |input|
      {
        found := found + 1;
        match ReadRecord(input) {
          case (None, error) =>
            assert handled + [] == handled;
            return handled, error;
          case (Some((r, n)), _) =>
            ghost var rest := ReadRecords(input[n..]);
            assert handled + ([r] + rest.0) == (handled + [r]) + rest.0;
            handled, input := handled + [r], input[n..];
        }
      }
      assert handled + [] == handled;
      status := if found != DecodeFixed32(rep[8..]) then WrongCount else Ok;
    }

    /** `InsertInto`: the memtable gets consecutive sequence numbers from that of the batch on. */
    method InsertInto(memtable: seq<(nat, Record)>, ghost sn: Word64, ghost records: seq<Record>)
      returns (memtable': seq<(nat, Record)>, status: Status)
      requires Holds(sn, records)
      ensures status == Ok && memtable' == memtable + Numbered(sn, records)
    {
      IteratesBack(sn, records);
      var start := Sequence(sn, records);
      var handled;
      handled, status := Iterate();
      memtable' := memtable + Numbered(start, handled);
    }
  }
}
