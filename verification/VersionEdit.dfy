/** The edits of the MANIFEST as bytes (db/version_edit.cc, lines 12-205). */
module VersionEdit {
  import opened Coding
  import opened DbFormat
  import LogFormat

  const NUM_LEVELS := 7

  /** `FileMetaData`; keys are the bytes of internal keys. */
  datatype Meta = Meta(number: Word64, size: Word64, smallest: Bytes, largest: Bytes)

  /** The fields that are set. `deleted` is a set kept in increasing order. */
  datatype Fields = Fields(
    comparator: Option<Bytes>,
    logNumber: Option<Word64>,
    prevLogNumber: Option<Word64>,
    nextFileNumber: Option<Word64>,
    lastSequence: Option<Word64>,
    pointers: seq<(nat, Bytes)>,
    deleted: seq<(nat, Word64)>,
    added: seq<(nat, Meta)>)

  const CLEAR := Fields(None, None, None, None, None, [], [], [])

  // ---------- the set of deleted files ----------

  predicate Before(a: (nat, Word64), b: (nat, Word64)) {
    a.0 < b.0 || (a.0 == b.0 && a.1 < b.1)
  }

  predicate Increasing(s: seq<(nat, Word64)>) {
    forall i, j :: 0 <= i < j < |s| ==> Before(s[i], s[j])
  }

  /** `std::set::insert`. */
  function Insert(s: seq<(nat, Word64)>, x: (nat, Word64)): seq<(nat, Word64)> {
    if s == [] then [x]
    else if Before(x, s[0]) then [x] + s
    else if x == s[0] then s
    else [s[0]] + Insert(s[1..], x)
  }

  lemma {:induction false} InsertLast(s: seq<(nat, Word64)>, x: (nat, Word64))
    requires Increasing(s + [x])
    ensures Insert(s, x) == s + [x]
  {
    if s != [] {
      assert Before((s + [x])[0], (s + [x])[|s|]);
      assert (s + [x])[1..] == s[1..] + [x];
      InsertLast(s[1..], x);
      assert [s[0]] + (s[1..] + [x]) == s + [x];
    }
  }

  // ---------- one item ----------

  datatype Counter = LogNumber | PrevLogNumber | NextFileNumber | LastSequence

  datatype Item =
    | Comparator(name: Bytes)
    | Number(counter: Counter, n: Word64)
    | CompactPointer(level: nat, key: Bytes)
    | DeletedFile(level: nat, n: Word64)
    | NewFile(level: nat, f: Meta)

  function TagOf(i: Item): nat {
    match i
    case Comparator(_) => 1
    case Number(LogNumber, _) => 2
    case Number(NextFileNumber, _) => 3
    case Number(LastSequence, _) => 4
    case CompactPointer(_, _) => 5
    case DeletedFile(_, _) => 6
    case NewFile(_, _) => 7
    case Number(PrevLogNumber, _) => 9
  }

  function Body(i: Item): Bytes {
    match i
    case Comparator(name) => PutLengthPrefixed(name)
    case Number(_, n) => Varint(n)
    case CompactPointer(level, key) => Varint(level) + PutLengthPrefixed(key)
    case DeletedFile(level, n) => Varint(level) + Varint(n)
    case NewFile(level, f) => Varint(level) + MetaImage(f)
  }

  function MetaImage(f: Meta): Bytes {
    Varint(f.number) + (Varint(f.size) + (PutLengthPrefixed(f.smallest) + PutLengthPrefixed(f.largest)))
  }

  function ItemImage(i: Item): (b: Bytes)
    ensures |b| > 0
  {
    Varint(TagOf(i)) + Body(i)
  }

  datatype Status =
    | Ok
    | BadComparator | BadLogNumber | BadPrevLogNumber | BadNextFileNumber | BadLastSequence
    | BadPointer | BadDeletedFile | BadNewFile
    | UnknownTag | InvalidTag

  function ReadVarint64(b: Bytes): (r: Option<(Word64, nat)>)
    ensures r.Some? ==> 1 <= r.value.1 <= |b|
  {
    match ReadVarint(b, 10)
    case None => None
    case Some((v, n)) => Some((v % TWO_64, n))
  }

  function ReadTag(b: Bytes): (r: Option<(nat, nat)>)
    ensures r.Some? ==> 1 <= r.value.1 <= |b|
  {
    match ReadVarint(b, 5)
    case None => None
    case Some((v, n)) => Some((v % TWO_32, n))
  }

  function ReadLevel(b: Bytes): (r: Option<(nat, nat)>)
    ensures r.Some? ==> 1 <= r.value.1 <= |b|
  {
    match ReadTag(b)
    case None => None
    case Some((v, n)) => if v < NUM_LEVELS then Some((v, n)) else None
  }

  function ReadPointer(b: Bytes): (r: Option<(Item, nat)>)
    ensures r.Some? ==> r.value.1 <= |b|
  {
    match ReadLevel(b)
    case None => None
    case Some((level, n)) =>
      match GetLengthPrefixed(b[n..])
      case None => None
      case Some((key, m)) => Some((CompactPointer(level, key), n + m))
  }

  function ReadDeleted(b: Bytes): (r: Option<(Item, nat)>)
    ensures r.Some? ==> r.value.1 <= |b|
  {
    match ReadLevel(b)
    case None => None
    case Some((level, n)) =>
      match ReadVarint64(b[n..])
      case None => None
      case Some((v, m)) => Some((DeletedFile(level, v), n + m))
  }

  function ReadMeta(b: Bytes): (r: Option<(Meta, nat)>)
    ensures r.Some? ==> r.value.1 <= |b|
  {
    match ReadVarint64(b)
    case None => None
    case Some((number, n)) =>
      match ReadVarint64(b[n..])
      case None => None
      case Some((size, m)) =>
        match GetLengthPrefixed(b[n..][m..])
        case None => None
        case Some((smallest, k)) =>
          match GetLengthPrefixed(b[n..][m..][k..])
          case None => None
          case Some((largest, l)) => Some((Meta(number, size, smallest, largest), n + m + k + l))
  }

  function ReadNewFile(b: Bytes): (r: Option<(Item, nat)>)
    ensures r.Some? ==> r.value.1 <= |b|
  {
    match ReadLevel(b)
    case None => None
    case Some((level, n)) =>
      match ReadMeta(b[n..])
      case None => None
      case Some((f, m)) => Some((NewFile(level, f), n + m))
  }

  function ReadNumber(b: Bytes, counter: Counter): (r: Option<(Item, nat)>)
    ensures r.Some? ==> r.value.1 <= |b|
  {
    match ReadVarint64(b) case None => None case Some((v, n)) => Some((Number(counter, v), n))
  }

  function Named(b: Bytes): (r: Option<(Item, nat)>)
    ensures r.Some? ==> r.value.1 <= |b|
  {
    match GetLengthPrefixed(b) case None => None case Some((name, n)) => Some((Comparator(name), n))
  }

  /** The item after its tag, or the message of the error. */
  function ReadBody(tag: nat, b: Bytes): (r: (Option<(Item, nat)>, Status))
    ensures r.0.Some? ==> r.0.value.1 <= |b|
  {
    if tag == 1 then (Named(b), BadComparator)
    else if tag == 2 then (ReadNumber(b, LogNumber), BadLogNumber)
    else if tag == 9 then (ReadNumber(b, PrevLogNumber), BadPrevLogNumber)
    else if tag == 3 then (ReadNumber(b, NextFileNumber), BadNextFileNumber)
    else if tag == 4 then (ReadNumber(b, LastSequence), BadLastSequence)
    else if tag == 5 then (ReadPointer(b), BadPointer)
    else if tag == 6 then (ReadDeleted(b), BadDeletedFile)
    else if tag == 7 then (ReadNewFile(b), BadNewFile)
    else (None, UnknownTag)
  }

  function Apply(e: Fields, i: Item): Fields {
    match i
    case Comparator(name) => e.(comparator := Some(name))
    case Number(LogNumber, n) => e.(logNumber := Some(n))
    case Number(PrevLogNumber, n) => e.(prevLogNumber := Some(n))
    case Number(NextFileNumber, n) => e.(nextFileNumber := Some(n))
    case Number(LastSequence, n) => e.(lastSequence := Some(n))
    case CompactPointer(level, key) => e.(pointers := e.pointers + [(level, key)])
    case DeletedFile(level, n) => e.(deleted := Insert(e.deleted, (level, n)))
    case NewFile(level, f) => e.(added := e.added + [(level, f)])
  }

  // ---------- whole edits ----------

  /** The edit so far, when an item cannot be read. */
  function Decoded(e: Fields, b: Bytes): (Fields, Status)
    decreases |b|
  {
    match ReadTag(b)
    case None => (e, if b == [] then Ok else InvalidTag)
    case Some((tag, n)) =>
      match ReadBody(tag, b[n..])
      case (None, error) => (e, error)
      case (Some((item, m)), _) => Decoded(Apply(e, item), b[n..][m..])
  }

  function Optional(o: Option<Word64>, counter: Counter): seq<Item> {
    if o.Some? then [Number(counter, o.value)] else []
  }

  /** The items in the order in which they are written. */
  function Header(e: Fields): seq<Item> {
    (if e.comparator.Some? then [Comparator(e.comparator.value)] else [])
    + Optional(e.logNumber, LogNumber)
    + Optional(e.prevLogNumber, PrevLogNumber)
    + Optional(e.nextFileNumber, NextFileNumber)
    + Optional(e.lastSequence, LastSequence)
  }

  function Pointers(e: Fields, n: nat): seq<Item>
    requires n <= |e.pointers|
  {
    seq(n, i requires 0 <= i < n => CompactPointer(e.pointers[i].0, e.pointers[i].1))
  }

  function Deleted(e: Fields, n: nat): seq<Item>
    requires n <= |e.deleted|
  {
    seq(n, i requires 0 <= i < n => DeletedFile(e.deleted[i].0, e.deleted[i].1))
  }

  function Added(e: Fields, n: nat): seq<Item>
    requires n <= |e.added|
  {
    seq(n, i requires 0 <= i < n => NewFile(e.added[i].0, e.added[i].1))
  }

  function Items(e: Fields): seq<Item> {
    Header(e) + Pointers(e, |e.pointers|) + Deleted(e, |e.deleted|) + Added(e, |e.added|)
  }

  function Image(items: seq<Item>): Bytes {
    if items == [] then [] else Image(items[..|items| - 1]) + ItemImage(items[|items| - 1])
  }

  function ApplyAll(e: Fields, items: seq<Item>): Fields {
    if items == [] then e else Apply(ApplyAll(e, items[..|items| - 1]), items[|items| - 1])
  }

  /** What the engine puts into an edit: levels exist, lengths are 32-bit numbers. */
  predicate Encodable(i: Item) {
    match i
    case Comparator(name) => |name| < TWO_32
    case CompactPointer(level, key) => level < NUM_LEVELS && |key| < TWO_32
    case DeletedFile(level, _) => level < NUM_LEVELS
    case NewFile(level, f) => level < NUM_LEVELS && |f.smallest| < TWO_32 && |f.largest| < TWO_32
    case _ => true
  }

  predicate Good(e: Fields) {
    Increasing(e.deleted) && forall i :: 0 <= i < |Items(e)| ==> Encodable(Items(e)[i])
  }

  // ---------- round trip ----------

  lemma NumberReads(v: Word64, rest: Bytes)
    ensures ReadVarint64(Varint(v) + rest) == Some((v, |Varint(v)|))
    ensures (Varint(v) + rest)[|Varint(v)|..] == rest
  {
    Powers();
    VarintRoundTrip(v, rest, 10);
  }

  lemma TagReads(v: nat, rest: Bytes)
    requires v < TWO_32
    ensures ReadTag(Varint(v) + rest) == Some((v, |Varint(v)|))
    ensures v < NUM_LEVELS ==> ReadLevel(Varint(v) + rest) == Some((v, |Varint(v)|))
    ensures (Varint(v) + rest)[|Varint(v)|..] == rest
  {
    Powers();
    VarintRoundTrip(v, rest, 5);
  }

  lemma StringReads(s: Bytes, rest: Bytes)
    requires |s| < TWO_32
    ensures GetLengthPrefixed(PutLengthPrefixed(s) + rest) == Some((s, |PutLengthPrefixed(s)|))
    ensures (PutLengthPrefixed(s) + rest)[|PutLengthPrefixed(s)|..] == rest
  {
    LengthPrefixedRoundTrip(s, rest);
  }

  lemma MetaReads(f: Meta, rest: Bytes)
    requires |f.smallest| < TWO_32 && |f.largest| < TWO_32
    ensures ReadMeta(MetaImage(f) + rest) == Some((f, |MetaImage(f)|))
  {
    hide ReadVarint64, GetLengthPrefixed, Varint, PutLengthPrefixed;
    var l := PutLengthPrefixed(f.largest) + rest;
    var s := PutLengthPrefixed(f.smallest) + l;
    var z := Varint(f.size) + s;
    assert MetaImage(f) + rest == Varint(f.number) + z;
    NumberReads(f.number, z);
    NumberReads(f.size, s);
    StringReads(f.smallest, l);
    StringReads(f.largest, rest);
  }

  lemma BodyReads(i: Item, rest: Bytes)
    requires Encodable(i)
    ensures ReadBody(TagOf(i), Body(i) + rest).0 == Some((i, |Body(i)|))
  {
    hide ReadVarint64, GetLengthPrefixed, Varint, PutLengthPrefixed, ReadTag, ReadMeta, ReadLevel;
    match i
    case Comparator(name) => StringReads(name, rest);
    case CompactPointer(level, key) =>
      assert Body(i) + rest == Varint(level) + (PutLengthPrefixed(key) + rest);
      TagReads(level, PutLengthPrefixed(key) + rest);
      StringReads(key, rest);
    case DeletedFile(level, n) =>
      assert Body(i) + rest == Varint(level) + (Varint(n) + rest);
      TagReads(level, Varint(n) + rest);
      NumberReads(n, rest);
    case NewFile(level, f) =>
      assert Body(i) + rest == Varint(level) + (MetaImage(f) + rest);
      TagReads(level, MetaImage(f) + rest);
      MetaReads(f, rest);
    case _ => NumberReads(i.n, rest);
  }

  lemma ItemDecodes(e: Fields, i: Item, rest: Bytes)
    requires Encodable(i)
    ensures Decoded(e, ItemImage(i) + rest) == Decoded(Apply(e, i), rest)
  {
    hide ReadTag, ReadBody, Varint, Body, Apply;
    var tag := Varint(TagOf(i));
    assert ItemImage(i) + rest == tag + (Body(i) + rest);
    TagReads(TagOf(i), Body(i) + rest);
    BodyReads(i, rest);
    assert (Body(i) + rest)[|Body(i)|..] == rest;
  }

  lemma {:induction false} ItemsDecode(e: Fields, items: seq<Item>, rest: Bytes)
    requires forall k :: 0 <= k < |items| ==> Encodable(items[k])
    ensures Decoded(e, Image(items) + rest) == Decoded(ApplyAll(e, items), rest)
    decreases |items|
  {
    hide ItemImage, Apply, Encodable, Decoded;
    if items == [] {
      assert [] + rest == rest;
    } else {
      var n := |items| - 1;
      assert Image(items) + rest == Image(items[..n]) + (ItemImage(items[n]) + rest);
      ItemsDecode(e, items[..n], ItemImage(items[n]) + rest);
      ItemDecodes(ApplyAll(e, items[..n]), items[n], rest);
    }
  }

  // ---------- malformed edits ----------

  /** The message when this item is cut off. */
  function MessageOf(i: Item): Status {
    match i
    case Comparator(_) => BadComparator
    case Number(LogNumber, _) => BadLogNumber
    case Number(PrevLogNumber, _) => BadPrevLogNumber
    case Number(NextFileNumber, _) => BadNextFileNumber
    case Number(LastSequence, _) => BadLastSequence
    case CompactPointer(_, _) => BadPointer
    case DeletedFile(_, _) => BadDeletedFile
    case NewFile(_, _) => BadNewFile
  }

  lemma NumberCut(v: Word64, k: nat)
    requires k < |Varint(v)|
    ensures ReadVarint64(Varint(v)[..k]) == None
  {
    VarintCut(v, k, 10);
  }

  lemma LevelCut(v: nat, k: nat)
    requires k < |Varint(v)|
    ensures ReadTag(Varint(v)[..k]) == None && ReadLevel(Varint(v)[..k]) == None
  {
    VarintCut(v, k, 5);
  }

  lemma MetaCut(f: Meta, k: nat)
    requires |f.smallest| < TWO_32 && |f.largest| < TWO_32 && k < |MetaImage(f)|
    ensures ReadMeta(MetaImage(f)[..k]) == None
  {
    hide ReadVarint64, GetLengthPrefixed, Varint, PutLengthPrefixed;
    var n, z := Varint(f.number), Varint(f.size);
    var s, l := PutLengthPrefixed(f.smallest), PutLengthPrefixed(f.largest);
    if k < |n| {
      assert MetaImage(f)[..k] == n[..k];
      NumberCut(f.number, k);
    } else {
      var j := k - |n|;
      var later := (z + (s + l))[..j];
      assert MetaImage(f)[..k] == n + later;
      NumberReads(f.number, later);
      if j < |z| {
        assert later == z[..j];
        NumberCut(f.size, j);
      } else {
        StringsCut(f.smallest, f.largest, j - |z|);
        assert later == z + (s + l)[..j - |z|];
        NumberReads(f.size, (s + l)[..j - |z|]);
      }
    }
  }

  lemma StringsCut(a: Bytes, b: Bytes, k: nat)
    requires |a| < TWO_32 && |b| < TWO_32 && k < |PutLengthPrefixed(a) + PutLengthPrefixed(b)|
    ensures
      var both := (PutLengthPrefixed(a) + PutLengthPrefixed(b))[..k];
      match GetLengthPrefixed(both)
      case None => true
      case Some((_, n)) => GetLengthPrefixed(both[n..]) == None
  {
    hide GetLengthPrefixed, PutLengthPrefixed;
    var s, l := PutLengthPrefixed(a), PutLengthPrefixed(b);
    if k < |s| {
      assert (s + l)[..k] == s[..k];
      LengthPrefixedCut(a, k);
    } else {
      assert (s + l)[..k] == s + l[..k - |s|];
      StringReads(a, l[..k - |s|]);
      LengthPrefixedCut(b, k - |s|);
    }
  }

  lemma BodyCut(i: Item, k: nat)
    requires Encodable(i) && k < |Body(i)|
    ensures ReadBody(TagOf(i), Body(i)[..k]) == (None, MessageOf(i))
  {
    hide ReadVarint64, GetLengthPrefixed, Varint, PutLengthPrefixed, ReadTag, ReadMeta, ReadLevel, MetaImage;
    var b := Body(i)[..k];
    match i
    case Comparator(name) => LengthPrefixedCut(name, k);
    case CompactPointer(level, key) =>
      if k < |Varint(level)| {
        assert b == Varint(level)[..k];
        LevelCut(level, k);
      } else {
        var later := PutLengthPrefixed(key)[..k - |Varint(level)|];
        assert b == Varint(level) + later;
        TagReads(level, later);
        LengthPrefixedCut(key, k - |Varint(level)|);
      }
    case DeletedFile(level, n) =>
      if k < |Varint(level)| {
        assert b == Varint(level)[..k];
        LevelCut(level, k);
      } else {
        var later := Varint(n)[..k - |Varint(level)|];
        assert b == Varint(level) + later;
        TagReads(level, later);
        NumberCut(n, k - |Varint(level)|);
      }
    case NewFile(level, f) =>
      if k < |Varint(level)| {
        assert b == Varint(level)[..k];
        LevelCut(level, k);
      } else {
        var later := MetaImage(f)[..k - |Varint(level)|];
        assert b == Varint(level) + later;
        TagReads(level, later);
        MetaCut(f, k - |Varint(level)|);
      }
    case _ => NumberCut(i.n, k);
  }

  /** Of an edit that is cut off, the items before the cut are kept, and unless the cut is between two items, the message
      says which kind of item it was. */
  lemma EditCut(items: seq<Item>, i: Item, k: nat)
    requires forall j :: 0 <= j < |items| ==> Encodable(items[j])
    requires Encodable(i) && k < |ItemImage(i)|
    ensures Decoded(CLEAR, Image(items) + ItemImage(i)[..k]) ==
            (ApplyAll(CLEAR, items), if k == 0 then Ok else MessageOf(i))
  {
    hide ReadTag, ReadBody, Body, Apply, ApplyAll, Image, TagOf, MessageOf, Decoded;
    var cut := ItemImage(i)[..k];
    ItemsDecode(CLEAR, items, cut);
    ItemCut(ApplyAll(CLEAR, items), i, k);
  }

  lemma ItemCut(e: Fields, i: Item, k: nat)
    requires Encodable(i) && k < |ItemImage(i)|
    ensures Decoded(e, ItemImage(i)[..k]) == (e, if k == 0 then Ok else MessageOf(i))
  {
    hide ReadTag, ReadBody, Body, Apply, MessageOf, Varint;
    var tag, cut := TagOf(i), ItemImage(i)[..k];
    if k == 0 {
      NothingTagged();
    } else {
      OneByteTag(tag);
      var later := Body(i)[..k - 1];
      assert cut == Varint(tag) + later;
      TagReads(tag, later);
      BodyCut(i, k - 1);
    }
  }

  lemma NothingTagged()
    ensures ReadTag([]) == None
  {
  }

  lemma OneByteTag(tag: nat)
    requires tag < 128
    ensures |Varint(tag)| == 1
  {
  }

  lemma {:induction false} ApplyConcat(e: Fields, a: seq<Item>, b: seq<Item>)
    ensures ApplyAll(e, a + b) == ApplyAll(ApplyAll(e, a), b)
    decreases |b|
  {
    if b == [] {
      assert a + b == a;
    } else {
      assert (a + b)[..|a + b| - 1] == a + b[..|b| - 1];
      ApplyConcat(e, a, b[..|b| - 1]);
    }
  }

  lemma ApplyFive(e: Fields, a: seq<Item>, b: seq<Item>, c: seq<Item>, d: seq<Item>, f: seq<Item>)
    ensures ApplyAll(e, a + b + c + d + f) == ApplyAll(ApplyAll(ApplyAll(ApplyAll(ApplyAll(e, a), b), c), d), f)
  {
    hide ApplyAll;
    ApplyConcat(e, a + b + c + d, f);
    ApplyConcat(e, a + b + c, d);
    ApplyConcat(e, a + b, c);
    ApplyConcat(e, a, b);
  }

  lemma HeaderApplies(e: Fields)
    ensures ApplyAll(CLEAR, Header(e)) == e.(pointers := [], deleted := [], added := [])
  {
    hide ApplyAll, Optional;
    var c := if e.comparator.Some? then [Comparator(e.comparator.value)] else [];
    var l, p := Optional(e.logNumber, LogNumber), Optional(e.prevLogNumber, PrevLogNumber);
    var f, s := Optional(e.nextFileNumber, NextFileNumber), Optional(e.lastSequence, LastSequence);
    ApplyFive(CLEAR, c, l, p, f, s);
    ApplyShort(CLEAR, c);
    var e0 := CLEAR.(comparator := e.comparator);
    assert ApplyAll(CLEAR, c) == e0;
    OptionalApplies(e0, e.logNumber, LogNumber);
    var e1 := e0.(logNumber := e.logNumber);
    assert ApplyAll(e0, l) == e1;
    OptionalApplies(e1, e.prevLogNumber, PrevLogNumber);
    var e2 := e1.(prevLogNumber := e.prevLogNumber);
    assert ApplyAll(e1, p) == e2;
    OptionalApplies(e2, e.nextFileNumber, NextFileNumber);
    var e3 := e2.(nextFileNumber := e.nextFileNumber);
    assert ApplyAll(e2, f) == e3;
    OptionalApplies(e3, e.lastSequence, LastSequence);
  }

  lemma OptionalApplies(e: Fields, o: Option<Word64>, counter: Counter)
    ensures ApplyAll(e, Optional(o, counter)) == if o.None? then e else Apply(e, Number(counter, o.value))
  {
    ApplyShort(e, Optional(o, counter));
  }

  lemma ApplyShort(e: Fields, items: seq<Item>)
    requires |items| <= 1
    ensures ApplyAll(e, items) == if items == [] then e else Apply(e, items[0])
  {
    if items != [] {
      assert items[..0] == [];
    }
  }

  lemma {:induction false} PointersApply(e: Fields, start: Fields, n: nat)
    requires n <= |e.pointers| && start.pointers == []
    ensures ApplyAll(start, Pointers(e, n)) == start.(pointers := e.pointers[..n])
  {
    if n > 0 {
      assert Pointers(e, n)[..n - 1] == Pointers(e, n - 1);
      PointersApply(e, start, n - 1);
      assert e.pointers[..n] == e.pointers[..n - 1] + [e.pointers[n - 1]];
    }
  }

  lemma {:induction false} DeletedApply(e: Fields, start: Fields, n: nat)
    requires n <= |e.deleted| && start.deleted == [] && Increasing(e.deleted)
    ensures ApplyAll(start, Deleted(e, n)) == start.(deleted := e.deleted[..n])
  {
    if n > 0 {
      assert Deleted(e, n)[..n - 1] == Deleted(e, n - 1);
      DeletedApply(e, start, n - 1);
      assert e.deleted[..n] == e.deleted[..n - 1] + [e.deleted[n - 1]];
      InsertLast(e.deleted[..n - 1], e.deleted[n - 1]);
    }
  }

  lemma {:induction false} AddedApply(e: Fields, start: Fields, n: nat)
    requires n <= |e.added| && start.added == []
    ensures ApplyAll(start, Added(e, n)) == start.(added := e.added[..n])
  {
    if n > 0 {
      assert Added(e, n)[..n - 1] == Added(e, n - 1);
      AddedApply(e, start, n - 1);
      assert e.added[..n] == e.added[..n - 1] + [e.added[n - 1]];
    }
  }

  /** Decoding an encoded edit gives the edit back. */
  lemma RoundTrip(e: Fields)
    requires Good(e)
    ensures Decoded(CLEAR, Image(Items(e))) == (e, Ok)
  {
    hide Decoded, Apply, Encodable, Increasing;
    var h, p := Header(e), Pointers(e, |e.pointers|);
    var d, a := Deleted(e, |e.deleted|), Added(e, |e.added|);
    ApplyConcat(CLEAR, h + p + d, a);
    ApplyConcat(CLEAR, h + p, d);
    ApplyConcat(CLEAR, h, p);
    HeaderApplies(e);
    var e0 := e.(pointers := [], deleted := [], added := []);
    PointersApply(e, e0, |e.pointers|);
    DeletedApply(e, e0.(pointers := e.pointers), |e.deleted|);
    AddedApply(e, e0.(pointers := e.pointers, deleted := e.deleted), |e.added|);
    assert e.pointers[..|e.pointers|] == e.pointers && e.deleted[..|e.deleted|] == e.deleted;
    assert e.added[..|e.added|] == e.added;
    ItemsDecode(CLEAR, Items(e), []);
    assert Image(Items(e)) + [] == Image(Items(e));
    EmptyDecodes(e);
  }

  lemma EmptyDecodes(e: Fields)
    ensures Decoded(e, []) == (e, Ok)
  {
  }

  lemma ImageMore(items: seq<Item>, i: Item)
    ensures Image(items + [i]) == Image(items) + ItemImage(i)
  {
    assert (items + [i])[..|items|] == items;
  }

  // ---------- the procedures ----------

  class VersionEdit {
    var fields: Fields

    constructor ()
      ensures fields == CLEAR
    {
      fields := CLEAR;
    }

    /** Compaction pointers stay. */
    method Clear()
      modifies this
      ensures fields == CLEAR.(pointers := old(fields).pointers)
    {
      fields := CLEAR.(pointers := fields.pointers);
    }

    method PutItem(dst: Bytes, i: Item, ghost items: seq<Item>) returns (dst': Bytes)
      requires dst == Image(items)
      ensures dst' == Image(items + [i])
    {
      hide Image, Varint, TagOf, Body;
      dst' := dst + Varint(TagOf(i));
      dst' := dst' + Body(i);
      ImageMore(items, i);
      assert dst' == dst + ItemImage(i);
    }

    method PutNumber(dst: Bytes, o: Option<Word64>, counter: Counter, ghost items: seq<Item>) returns (dst': Bytes)
      requires dst == Image(items)
      ensures dst' == Image(items + Optional(o, counter))
    {
      dst' := dst;
      if o.Some? {
        dst' := PutItem(dst, Number(counter, o.value), items);
      } else {
        assert items + [] == items;
      }
    }

    method PutHeader() returns (dst: Bytes)
      ensures dst == Image(Header(fields))
    {
      hide Image, ItemImage, Optional;
      NoItems();
      dst := [];
      if fields.comparator.Some? {
        dst := PutItem(dst, Comparator(fields.comparator.value), []);
        assert [] + [Comparator(fields.comparator.value)] == [Comparator(fields.comparator.value)];
      }
      ghost var c := if fields.comparator.Some? then [Comparator(fields.comparator.value)] else [];
      ghost var l := c + Optional(fields.logNumber, LogNumber);
      ghost var p := l + Optional(fields.prevLogNumber, PrevLogNumber);
      ghost var n := p + Optional(fields.nextFileNumber, NextFileNumber);
      dst := PutNumber(dst, fields.logNumber, LogNumber, c);
      dst := PutNumber(dst, fields.prevLogNumber, PrevLogNumber, l);
      dst := PutNumber(dst, fields.nextFileNumber, NextFileNumber, p);
      dst := PutNumber(dst, fields.lastSequence, LastSequence, n);
    }

    method EncodeTo() returns (dst: Bytes)
      ensures dst == Image(Items(fields))
    {
      hide Image, ItemImage, Header;
      dst := PutHeader();
      ghost var h := Header(fields);
      assert h + Pointers(fields, 0) == h;
      for i := 0 to |fields.pointers|
        invariant dst == Image(h + Pointers(fields, i))
      {
        ghost var item := CompactPointer(fields.pointers[i].0, fields.pointers[i].1);
        dst := PutItem(dst, CompactPointer(fields.pointers[i].0, fields.pointers[i].1), h + Pointers(fields, i));
        assert h + Pointers(fields, i) + [item] == h + Pointers(fields, i + 1);
      }
      ghost var p := h + Pointers(fields, |fields.pointers|);
      dst := PutDeleted(dst, p);
      ghost var d := p + Deleted(fields, |fields.deleted|);
      assert d + Added(fields, 0) == d;
      for i := 0 to |fields.added|
        invariant dst == Image(d + Added(fields, i))
      {
        ghost var item := NewFile(fields.added[i].0, fields.added[i].1);
        dst := PutItem(dst, NewFile(fields.added[i].0, fields.added[i].1), d + Added(fields, i));
        assert d + Added(fields, i) + [item] == d + Added(fields, i + 1);
      }
    }

    method PutDeleted(dst: Bytes, ghost p: seq<Item>) returns (dst': Bytes)
      requires dst == Image(p)
      ensures dst' == Image(p + Deleted(fields, |fields.deleted|))
    {
      hide Image;
      dst' := dst;
      assert p + Deleted(fields, 0) == p;
      for i := 0 to |fields.deleted|
        invariant dst' == Image(p + Deleted(fields, i))
      {
        ghost var item := DeletedFile(fields.deleted[i].0, fields.deleted[i].1);
        dst' := PutItem(dst', DeletedFile(fields.deleted[i].0, fields.deleted[i].1), p + Deleted(fields, i));
        assert p + Deleted(fields, i) + [item] == p + Deleted(fields, i + 1);
      }
    }

    static lemma NoItems()
      ensures Image([]) == []
    {
    }

    /** Whatever the bytes are. */
    method DecodeFrom(src: Bytes) returns (status: Status)
      modifies this
      ensures (fields, status) == Decoded(CLEAR.(pointers := old(fields).pointers), src)
    {
      hide ReadTag, ReadBody, Apply;
      Clear();
      var input := src;
      ghost var start := fields;
      while true
        invariant Decoded(start, src) == Decoded(fields, input)
        decreases |input|
      {
        match ReadTag(input) {
          case None =>
            return if input == [] then Ok else InvalidTag;
          case Some((tag, n)) =>
            match ReadBody(tag, input[n..]) {
              case (None, error) => return error;
              case (Some((item, m)), _) =>
                fields := Apply(fields, item);
                input := input[n..][m..];
            }
        }
      }
    }
  }

  // ---------- the manifest ----------

  function Images(edits: seq<Fields>): (r: seq<Bytes>)
    ensures |r| == |edits|
  {
    seq(|edits|, i requires 0 <= i < |edits| => Image(Items(edits[i])))
  }

  /** Reads a manifest of which only the first bytes have survived: the edits that were wholly written, in order, each as
      it was. */
  method ReadManifest(crc: LogFormat.Checksum, file: Bytes, ghost edits: seq<Fields>)
    returns (r: seq<Fields>, corrupted: bool)
    requires forall i :: 0 <= i < |edits| ==> Good(edits[i])
    requires file <= LogFormat.LogImage(crc, 0, Images(edits))
    ensures !corrupted && r == edits[..LogFormat.Whole(0, Images(edits), |file|)]
  {
    hide Decoded, Image, Items, Good, LogFormat.LogImage, LogFormat.Whole;
    var records, drops := LogFormat.ReadAll(crc, file, Images(edits));
    r, corrupted := [], drops != 0;
    for i := 0 to |records|
      invariant !corrupted && r == edits[..i]
    {
      var edit := new VersionEdit();
      var status := edit.DecodeFrom(records[i]);
      RoundTrip(edits[i]);
      corrupted := status != Ok;
      r := r + [edit.fields];
    }
  }
}
