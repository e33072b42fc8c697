/** Tables: data blocks, an index of separators, and a filter, built in one pass and searched through
    (table/table_builder.cc, lines 94-257; table/table.cc, lines 150-244; table/format.cc, lines 13-148).

    Blocks are stored uncompressed.  The footer and the metaindex block, which only say where the index and
    the filter are, are not part of this model. */
module Table {
  import opened DbFormat
  import opened Coding
  import opened Comparator
  import opened Concatenation
  import opened Block
  import opened BlockIter
  import FilterBlock
  import LogFormat

  type Checksum = Bytes -> Word

  // ---------- handles and stored blocks ----------

  datatype BlockHandle = BlockHandle(offset: nat, size: nat)

  function EncodeHandle(h: BlockHandle): Bytes {
    Varint(h.offset) + Varint(h.size)
  }

  function DecodeHandle(b: Bytes): Option<BlockHandle> {
    match ReadVarint(b, 10)
    case None => None
    case Some((offset, n)) =>
      match ReadVarint(b[n..], 10)
      case None => None
      case Some((size, m)) => Some(BlockHandle(offset % TWO_64, size % TWO_64))
  }

  lemma HandleRoundTrip(h: BlockHandle)
    requires h.offset < TWO_64 && h.size < TWO_64
    ensures DecodeHandle(EncodeHandle(h)) == Some(h)
  {
    hide Varint, ReadVarint, Power128;
    Powers();
    var a, b := Varint(h.offset), Varint(h.size);
    VarintRoundTrip(h.offset, b, 10);
    VarintRoundTrip(h.size, [], 10);
    assert EncodeHandle(h)[|a|..] == b + [];
  }

  const NO_COMPRESSION: Byte := 0
  const BLOCK_TRAILER := 5

  /** A block on file: contents, type, and a checksum over both. */
  function RawBlock(crc: Checksum, contents: Bytes): Bytes {
    contents + [NO_COMPRESSION] + EncodeFixed32(LogFormat.Mask(crc(contents + [NO_COMPRESSION])))
  }

  /** The file holds the contents at the handle. */
  ghost predicate Holds(crc: Checksum, file: Bytes, h: BlockHandle, contents: Bytes) {
    && |contents| == h.size
    && h.offset + h.size + BLOCK_TRAILER <= |file| < TWO_64
    && file[h.offset..h.offset + h.size + BLOCK_TRAILER] == RawBlock(crc, contents)
  }

  /** Returns a block exactly if the trailer has the type and the checksum that go with it. */
  method ReadBlock(crc: Checksum, file: Bytes, h: BlockHandle) returns (r: Option<Bytes>)
    ensures r.Some? && |file| < TWO_64 ==> Holds(crc, file, h, r.value)
    ensures forall contents :: Holds(crc, file, h, contents) ==> r == Some(contents)
    ensures r.Some? ==> h.offset + |r.value| <= |file| && r.value == file[h.offset..h.offset + |r.value|]
  {
    var n := h.size;
    if h.offset + n + BLOCK_TRAILER > |file| {
      return None;
    }
    var data := file[h.offset..h.offset + n + BLOCK_TRAILER];
    forall contents | Holds(crc, file, h, contents)
      ensures contents == data[..n] && data[n] == NO_COMPRESSION
      ensures LogFormat.Unmask(DecodeFixed32(data[n + 1..])) == crc(data[..n + 1])
    {
      RawBlockReads(crc, contents);
    }
    if LogFormat.Unmask(DecodeFixed32(data[n + 1..])) != crc(data[..n + 1]) {
      return None;
    }
    if data[n] != NO_COMPRESSION {
      return None;
    }
    assert data[..n] == file[h.offset..h.offset + n];
    RawBlockIs(crc, data, n);
    r := Some(data[..n]);
  }

  /** A trailer with the right type and checksum is the one that was written. */
  lemma RawBlockIs(crc: Checksum, data: Bytes, n: nat)
    requires |data| == n + BLOCK_TRAILER && data[n] == NO_COMPRESSION
    requires LogFormat.Unmask(DecodeFixed32(data[n + 1..])) == crc(data[..n + 1])
    ensures data == RawBlock(crc, data[..n])
  {
    hide EncodeFixed32, DecodeFixed32;
    assert data[..n + 1] == data[..n] + [NO_COMPRESSION];
    LogFormat.MaskUnmask(DecodeFixed32(data[n + 1..]));
    FourBytes(data[n + 1..]);
  }

  lemma RawBlockReads(crc: Checksum, contents: Bytes)
    ensures var data := RawBlock(crc, contents);
      var n := |contents|;
      && |data| == n + BLOCK_TRAILER && data[..n] == contents && data[n] == NO_COMPRESSION
      && LogFormat.Unmask(DecodeFixed32(data[n + 1..])) == crc(data[..n + 1])
  {
    var n, masked := |contents|, LogFormat.Mask(crc(contents + [NO_COMPRESSION]));
    var data := RawBlock(crc, contents);
    hide EncodeFixed32, DecodeFixed32;
    assert data[n + 1..] == EncodeFixed32(masked) + [];
    assert data[..n + 1] == contents + [NO_COMPRESSION];
    Fixed32RoundTrip(masked, []);
    LogFormat.UnmaskMask(crc(contents + [NO_COMPRESSION]));
  }

  /** Files only grow. */
  lemma HoldsLater(crc: Checksum, file: Bytes, h: BlockHandle, contents: Bytes, more: Bytes)
    requires Holds(crc, file, h, contents) && |file + more| < TWO_64
    ensures Holds(crc, file + more, h, contents)
  {
    var n := h.offset + h.size + BLOCK_TRAILER;
    assert (file + more)[h.offset..n] == file[h.offset..n];
  }

  // ---------- what a table holds ----------

  /** A data block that has been written. */
  datatype Written = Written(handle: BlockHandle, pairs: seq<Pair>, starts: seq<nat>)

  function PairsOf(blocks: seq<Written>): (r: seq<seq<Pair>>)
    ensures |r| == |blocks| && forall i :: 0 <= i < |blocks| ==> r[i] == blocks[i].pairs
  {
    seq(|blocks|, i requires 0 <= i < |blocks| => blocks[i].pairs)
  }

  /** All pairs of the table, in order. */
  function AllPairs(blocks: seq<Written>): seq<Pair> {
    Concat(PairsOf(blocks))
  }

  ghost predicate StoredBlock(crc: Checksum, file: Bytes, b: Written) {
    && b.pairs != []
    && StartsOk(b.starts, |b.pairs|) && SizesFit(b.pairs, b.starts)
    && Holds(crc, file, b.handle, BlockImage(b.pairs, b.starts))
  }

  function Last(b: Written): Bytes
    requires b.pairs != []
  {
    b.pairs[|b.pairs| - 1].key
  }

  /** The index key of a block: its last key, or a short key whose user key lies strictly between. */
  predicate Separator(last: Bytes, sep: Bytes, next: Option<Bytes>) {
    && !InternalLess(sep, last)
    && (sep == last || BytesLess(UserOf(last), UserOf(sep)))
    && (next.Some? ==> InternalLess(sep, next.value) && (sep == last || BytesLess(UserOf(sep), UserOf(next.value))))
  }

  function FirstKey(blocks: seq<Written>, i: nat): Option<Bytes> {
    if i < |blocks| && blocks[i].pairs != [] then Some(blocks[i].pairs[0].key) else None
  }

  function IndexPairs(blocks: seq<Written>, seps: seq<Bytes>): seq<Pair>
    requires |seps| <= |blocks|
  {
    seq(|seps|, i requires 0 <= i < |seps| => Pair(seps[i], EncodeHandle(blocks[i].handle)))
  }

  ghost predicate Separated(blocks: seq<Written>, seps: seq<Bytes>) {
    && |seps| == |blocks|
    && (forall i :: 0 <= i < |blocks| ==> blocks[i].pairs != [])
    && Ascending(InternalLess, AllPairs(blocks))
    && (forall i :: 0 <= i < |blocks| ==> Separator(Last(blocks[i]), seps[i], FirstKey(blocks, i + 1)))
  }

  // ---------- the place of a key ----------

  lemma AllAt(blocks: seq<Written>, i: nat, k: nat)
    requires i < |blocks| && k < |blocks[i].pairs|
    ensures var p := Before(PairsOf(blocks), i) + k;
      p < |AllPairs(blocks)| && AllPairs(blocks)[p] == blocks[i].pairs[k]
  {
    var ps := PairsOf(blocks);
    ConcatAt(ps, |ps|, i, k);
    BeforeAll(ps);
    assert ps[..|ps|] == ps;
  }

  /** Keys of a block are at most its index key, keys of later blocks are greater. */
  lemma IndexSide(blocks: seq<Written>, seps: seq<Bytes>, i: nat, j: nat, k: nat)
    requires Separated(blocks, seps) && i < |blocks| && j < |blocks| && k < |blocks[j].pairs|
    ensures j <= i ==> !InternalLess(seps[i], blocks[j].pairs[k].key)
    ensures i < j ==> InternalLess(seps[i], blocks[j].pairs[k].key)
  {
    hide InternalLess, AllPairs, PairsOf, Concat, Before, Separated;
    if j <= i {
      UpTo(blocks, seps, i, j, k);
    } else {
      After(blocks, seps, i, j, k);
    }
  }

  /** A key of an earlier block is not after the last key of block `i`, and so not after its separator. */
  lemma UpTo(blocks: seq<Written>, seps: seq<Bytes>, i: nat, j: nat, k: nat)
    requires Separated(blocks, seps) && j <= i < |blocks| && k < |blocks[j].pairs|
    ensures !InternalLess(seps[i], blocks[j].pairs[k].key)
  {
    hide InternalLess, AllPairs, PairsOf, Concat, Before, Separated;
    NotBeforeLast(blocks, seps, i);
    var n := |blocks[i].pairs| - 1;
    if j < i || k < n {
      EarlierIsLess(blocks, seps, j, k, i, n);
    }
    NotPast(blocks[j].pairs[k].key, blocks[i].pairs[n].key, seps[i]);
  }

  lemma NotBeforeLast(blocks: seq<Written>, seps: seq<Bytes>, i: nat)
    requires Separated(blocks, seps) && i < |blocks|
    ensures |seps| == |blocks| && blocks[i].pairs != []
    ensures !InternalLess(seps[i], blocks[i].pairs[|blocks[i].pairs| - 1].key)
  {
    hide InternalLess, Ascending;
  }

  lemma NotPast(a: Bytes, b: Bytes, sep: Bytes)
    requires (a == b || InternalLess(a, b)) && !InternalLess(sep, b)
    ensures !InternalLess(sep, a)
  {
    InternalOrder();
    hide InternalLess;
  }

  lemma After(blocks: seq<Written>, seps: seq<Bytes>, i: nat, j: nat, k: nat)
    requires Separated(blocks, seps) && i < j < |blocks| && k < |blocks[j].pairs|
    ensures InternalLess(seps[i], blocks[j].pairs[k].key)
  {
    hide InternalLess, AllPairs, PairsOf, Concat, Before, Separated;
    StartsAfter(blocks, seps, i);
    if i + 1 < j || k > 0 {
      EarlierIsLess(blocks, seps, i + 1, 0, j, k);
    }
    Past(seps[i], blocks[i + 1].pairs[0].key, blocks[j].pairs[k].key);
  }

  lemma StartsAfter(blocks: seq<Written>, seps: seq<Bytes>, i: nat)
    requires Separated(blocks, seps) && i + 1 < |blocks|
    ensures |seps| == |blocks| && blocks[i + 1].pairs != [] && InternalLess(seps[i], blocks[i + 1].pairs[0].key)
  {
    hide InternalLess, Ascending;
  }

  /** Pairs ascend within a block and from block to block. */
  lemma EarlierIsLess(blocks: seq<Written>, seps: seq<Bytes>, i: nat, n: nat, j: nat, k: nat)
    requires Separated(blocks, seps) && i <= j < |blocks| && n < |blocks[i].pairs| && k < |blocks[j].pairs|
    requires i < j || n < k
    ensures InternalLess(blocks[i].pairs[n].key, blocks[j].pairs[k].key)
  {
    hide InternalLess, AllPairs, PairsOf, Concat, Before, Separated;
    var ps, all := PairsOf(blocks), AllPairs(blocks);
    AllAt(blocks, i, n);
    AllAt(blocks, j, k);
    if i < j {
      BeforeNext(ps, i);
      BeforeGrows(ps, i + 1, j);
    }
    AllAscend(blocks, seps, Before(ps, i) + n, Before(ps, j) + k);
  }

  lemma AllAscend(blocks: seq<Written>, seps: seq<Bytes>, a: nat, b: nat)
    requires Separated(blocks, seps) && a < b < |AllPairs(blocks)|
    ensures InternalLess(AllPairs(blocks)[a].key, AllPairs(blocks)[b].key)
  {
    hide InternalLess, AllPairs, Separator;
  }

  lemma Past(sep: Bytes, a: Bytes, b: Bytes)
    requires InternalLess(sep, a) && (a == b || InternalLess(a, b))
    ensures InternalLess(sep, b)
  {
    InternalOrder();
    hide InternalLess;
  }

  lemma BlockAscends(blocks: seq<Written>, i: nat)
    requires Ascending(InternalLess, AllPairs(blocks)) && i < |blocks|
    ensures Ascending(InternalLess, blocks[i].pairs)
  {
    hide InternalLess;
    forall k, l | 0 <= k < l < |blocks[i].pairs|
      ensures InternalLess(blocks[i].pairs[k].key, blocks[i].pairs[l].key)
    {
      AllAt(blocks, i, k);
      AllAt(blocks, i, l);
    }
  }

  function PlaceOf(blocks: seq<Written>, j: nat, k: Bytes): nat {
    if j < |blocks| then Before(PairsOf(blocks), j) + FirstPair(InternalLess, blocks[j].pairs, k) else |AllPairs(blocks)|
  }

  lemma AtMostLess(a: Bytes, b: Bytes, c: Bytes)
    requires !InternalLess(b, a) && InternalLess(b, c)
    ensures InternalLess(a, c)
  {
    InternalOrder();
    hide InternalLess;
  }

  lemma AtMostAtMost(a: Bytes, b: Bytes, c: Bytes)
    requires !InternalLess(b, a) && InternalLess(b, c)
    ensures !InternalLess(c, a)
  {
    InternalOrder();
    hide InternalLess;
  }

  lemma PlaceSide(blocks: seq<Written>, seps: seq<Bytes>, k: Bytes, q: nat)
    requires Separated(blocks, seps) && q < |AllPairs(blocks)|
    ensures q < PlaceOf(blocks, FirstPair(InternalLess, IndexPairs(blocks, seps), k), k) <==>
            InternalLess(AllPairs(blocks)[q].key, k)
  {
    hide InternalLess, Separator, PairsOf, Concat, Before, AllPairs, FirstPair, Ascending, IndexPairs, PlaceOf;
    var j := FirstPair(InternalLess, IndexPairs(blocks, seps), k);
    var ps := PairsOf(blocks);
    AllBefore(blocks);
    IndexFound(blocks, seps, k);
    PlaceMeans(blocks, j, k);
    var i, n := ConcatFrom(ps, |ps|, q);
    AllAt(blocks, i, n);
    if i < j {
      IndexSide(blocks, seps, i, i, n);
      IndexBefore(blocks, seps, k, i);
      AtMostLess(blocks[i].pairs[n].key, seps[i], k);
      BeforeNext(ps, i);
      BeforeGrows(ps, i + 1, j);
    } else if j < i {
      IndexSide(blocks, seps, j, i, n);
      IndexAfter(blocks, seps, k);
      AtMostAtMost(k, seps[j], blocks[i].pairs[n].key);
      BeforeNext(ps, j);
      BeforeGrows(ps, j + 1, i);
    } else {
      BlockAscends(blocks, j);
      WithinBlock(blocks[j].pairs, k, n);
    }
  }

  lemma PlaceMeans(blocks: seq<Written>, j: nat, k: Bytes)
    ensures j < |blocks| ==> PlaceOf(blocks, j, k) == Before(PairsOf(blocks), j) + FirstPair(InternalLess, blocks[j].pairs, k)
    ensures j >= |blocks| ==> PlaceOf(blocks, j, k) == |AllPairs(blocks)|
  {
  }

  lemma IndexFound(blocks: seq<Written>, seps: seq<Bytes>, k: Bytes)
    requires |blocks| == |seps|
    ensures FirstPair(InternalLess, IndexPairs(blocks, seps), k) <= |blocks|
  {
  }

  lemma AllBefore(blocks: seq<Written>)
    ensures |AllPairs(blocks)| == Before(PairsOf(blocks), |blocks|)
  {
    BeforeAll(PairsOf(blocks));
  }

  lemma IndexAfter(blocks: seq<Written>, seps: seq<Bytes>, k: Bytes)
    requires |seps| == |blocks| && FirstPair(InternalLess, IndexPairs(blocks, seps), k) < |seps|
    ensures !InternalLess(seps[FirstPair(InternalLess, IndexPairs(blocks, seps), k)], k)
  {
  }

  lemma IndexBefore(blocks: seq<Written>, seps: seq<Bytes>, k: Bytes, i: nat)
    requires |seps| == |blocks| && i < FirstPair(InternalLess, IndexPairs(blocks, seps), k)
    ensures i < |seps| && InternalLess(seps[i], k)
  {
    assert IndexPairs(blocks, seps)[i].key == seps[i];
  }

  lemma WithinBlock(pairs: seq<Pair>, k: Bytes, n: nat)
    requires Ascending(InternalLess, pairs) && n < |pairs|
    ensures n < FirstPair(InternalLess, pairs, k) <==> InternalLess(pairs[n].key, k)
  {
    hide InternalLess;
    var f := FirstPair(InternalLess, pairs, k);
    if f < n && InternalLess(pairs[n].key, k) {
      Past(pairs[f].key, pairs[n].key, k);
    }
  }

  /** The index finds the block in which the key has its place, or else its place is at the next block. */
  lemma PlaceInTable(blocks: seq<Written>, seps: seq<Bytes>, k: Bytes)
    requires Separated(blocks, seps)
    ensures FirstPair(InternalLess, AllPairs(blocks), k) ==
            PlaceOf(blocks, FirstPair(InternalLess, IndexPairs(blocks, seps), k), k)
  {
    hide InternalLess, Separator;
    var j := FirstPair(InternalLess, IndexPairs(blocks, seps), k);
    var p := PlaceOf(blocks, j, k);
    var ps := PairsOf(blocks);
    BeforeAll(ps);
    if j < |blocks| {
      BeforeNext(ps, j);
      BeforeGrows(ps, j + 1, |blocks|);
    }
    forall q | 0 <= q < |AllPairs(blocks)| ensures q < p <==> InternalLess(AllPairs(blocks)[q].key, k) {
      PlaceSide(blocks, seps, k, q);
    }
    PlaceIs(InternalLess, AllPairs(blocks), k, p);
  }

  /** A key past the last key of the block that the index gives is not about the user key of the next. */
  lemma NextBlockDiffers(blocks: seq<Written>, seps: seq<Bytes>, j: nat, k: Bytes)
    requires Separated(blocks, seps) && j + 1 < |blocks|
    requires !InternalLess(seps[j], k) && InternalLess(Last(blocks[j]), k)
    ensures UserOf(blocks[j + 1].pairs[0].key) != UserOf(k)
  {
    BytesOrder();
    hide BytesLess, UserOf, TagOf;
    assert Separator(Last(blocks[j]), seps[j], FirstKey(blocks, j + 1));
  }

  // ---------- lookup ----------

  /** What the table reader has in memory, and what it stands for. */
  ghost predicate TableOk(crc: Checksum, file: Bytes, index: Bytes, blocks: seq<Written>, seps: seq<Bytes>,
                          starts: seq<nat>)
  {
    && Separated(blocks, seps)
    && (forall i :: 0 <= i < |blocks| ==> StoredBlock(crc, file, blocks[i]))
    && StartsOk(starts, |blocks|) && SizesFit(IndexPairs(blocks, seps), starts)
    && index == BlockImage(IndexPairs(blocks, seps), starts)
  }

  /** The filter lets every key pass that has an entry in a block of the range. */
  ghost predicate FilterOk(filter: Option<Bytes>, create: FilterBlock.Create, matches: FilterBlock.Match,
                           groups: seq<seq<Bytes>>, blocks: seq<Written>)
  {
    filter.Some? ==>
      && FilterBlock.WellFormed(create, groups, filter.value)
      && forall i, n, k :: 0 <= i < |blocks| && 0 <= n < |blocks[i].pairs| && UserOf(k) == UserOf(blocks[i].pairs[n].key) ==>
           FilterBlock.Covers(create, matches, groups, blocks[i].handle.offset, k)
  }

  lemma IndexAscends(blocks: seq<Written>, seps: seq<Bytes>)
    requires Separated(blocks, seps)
    ensures Ascending(InternalLess, IndexPairs(blocks, seps))
  {
    InternalOrder();
    hide InternalLess;
    forall i, j | 0 <= i < j < |seps| ensures InternalLess(seps[i], seps[j]) {
      var n := |blocks[j].pairs| - 1;
      IndexSide(blocks, seps, i, j, n);
      IndexSide(blocks, seps, j, j, n);
    }
  }

  lemma HandleOf(crc: Checksum, file: Bytes, blocks: seq<Written>, j: nat)
    requires j < |blocks| && StoredBlock(crc, file, blocks[j])
    ensures DecodeHandle(EncodeHandle(blocks[j].handle)) == Some(blocks[j].handle)
  {
    hide EncodeHandle, DecodeHandle, BlockImage, SizesFit, StartsOk, RawBlock;
    HandleRoundTrip(blocks[j].handle);
  }

  /** The pair at the place of `k`, if it is in block `j`; otherwise it is not about the user key of `k`. */
  lemma SeekEnds(blocks: seq<Written>, seps: seq<Bytes>, j: nat, k: Bytes)
    requires Separated(blocks, seps) && j == FirstPair(InternalLess, IndexPairs(blocks, seps), k) < |blocks|
    ensures var all := AllPairs(blocks);
      var p := FirstPair(InternalLess, blocks[j].pairs, k);
      var i := PlaceOf(blocks, j, k);
      if p < |blocks[j].pairs| then i < |all| && all[i] == blocks[j].pairs[p]
      else i < |all| ==> UserOf(all[i].key) != UserOf(k)
  {
    hide InternalLess, UserOf, Separator, Concat, Before, AllPairs, PairsOf, Ascending, FirstPair;
    var ps := PairsOf(blocks);
    var p := FirstPair(InternalLess, blocks[j].pairs, k);
    if p < |blocks[j].pairs| {
      AllAt(blocks, j, p);
    } else {
      BeforeNext(ps, j);
      AllBefore(blocks);
      if j + 1 < |blocks| {
        AllAt(blocks, j + 1, 0);
        IndexAfter(blocks, seps, k);
        NextBlockDiffers(blocks, seps, j, k);
      }
    }
  }

  lemma FilteredOut(filter: Option<Bytes>, create: FilterBlock.Create, matches: FilterBlock.Match,
                    groups: seq<seq<Bytes>>, blocks: seq<Written>, seps: seq<Bytes>, j: nat, k: Bytes)
    requires Separated(blocks, seps) && j == FirstPair(InternalLess, IndexPairs(blocks, seps), k) < |blocks|
    requires FilterOk(filter, create, matches, groups, blocks) && filter.Some?
    requires !FilterBlock.Covers(create, matches, groups, blocks[j].handle.offset, k)
    ensures var i := PlaceOf(blocks, j, k);
      i < |AllPairs(blocks)| ==> UserOf(AllPairs(blocks)[i].key) != UserOf(k)
  {
    hide InternalLess, UserOf, Separator;
    SeekEnds(blocks, seps, j, k);
  }

  lemma FilterFormed(filter: Option<Bytes>, create: FilterBlock.Create, matches: FilterBlock.Match,
                     groups: seq<seq<Bytes>>, blocks: seq<Written>)
    requires FilterOk(filter, create, matches, groups, blocks) && filter.Some?
    ensures FilterBlock.WellFormed(create, groups, filter.value)
  {
  }

  /** `BlockReader` and a seek in the block. */
  method SeekBlock(crc: Checksum, file: Bytes, h: BlockHandle, k: Bytes, ghost b: Written) returns (r: Option<Pair>)
    requires StoredBlock(crc, file, b) && h == b.handle && Ascending(InternalLess, b.pairs)
    ensures var p := FirstPair(InternalLess, b.pairs, k);
      r == if p < |b.pairs| then Some(b.pairs[p]) else None
  {
    hide InternalLess, BlockImage, RawBlock, StartsOk, SizesFit, Ascending, WeakOrder;
    var contents := ReadBlock(crc, file, h);
    assert contents == Some(BlockImage(b.pairs, b.starts));
    InternalOrder();
    r := SeekIn(InternalLess, contents.value, k, b.pairs, b.starts);
  }

  /** Finds the first pair at or after `k`, unless that is not about the user key of `k`: then it may find
      nothing, but never anything else. */
  method InternalGet(crc: Checksum, file: Bytes, index: Bytes, filter: Option<Bytes>, matches: FilterBlock.Match,
                     k: Bytes, ghost blocks: seq<Written>, ghost seps: seq<Bytes>, ghost starts: seq<nat>,
                     ghost create: FilterBlock.Create, ghost groups: seq<seq<Bytes>>)
    returns (r: Option<Pair>)
    requires TableOk(crc, file, index, blocks, seps, starts)
    requires FilterOk(filter, create, matches, groups, blocks)
    ensures var all := AllPairs(blocks);
      var i := FirstPair(InternalLess, all, k);
      && (r.Some? ==> i < |all| && r.value == all[i])
      && (i < |all| && UserOf(all[i].key) == UserOf(k) ==> r.Some?)
    ensures var j := FirstPair(InternalLess, IndexPairs(blocks, seps), k);
      filter.Some? && j < |blocks| && !FilterBlock.Covers(create, matches, groups, blocks[j].handle.offset, k) ==> r.None?
  {
    hide InternalLess, Separator, UserOf, FilterBlock.Covers, BlockImage, StartsOk, SizesFit, FilterOk, StoredBlock, EncodeHandle,
         DecodeHandle, WeakOrder, Ascending;
    ghost var pairs := IndexPairs(blocks, seps);
    IndexAscends(blocks, seps);
    InternalOrder();
    PlaceInTable(blocks, seps, k);
    var entry := SeekIn(InternalLess, index, k, pairs, starts);
    ghost var j := FirstPair(InternalLess, pairs, k);
    r := None;
    if entry.Some? {
      HandleOf(crc, file, blocks, j);
      SeekEnds(blocks, seps, j, k);
      var handle := DecodeHandle(entry.value.val).value;
      var may := true;
      if filter.Some? {
        FilterFormed(filter, create, matches, groups, blocks);
        may := FilterBlock.KeyMayMatch(matches, filter.value, handle.offset, k, create, groups);
      }
      if !may {
        FilteredOut(filter, create, matches, groups, blocks, seps, j, k);
      } else {
        BlockAscends(blocks, j);
        r := SeekBlock(crc, file, handle, k, blocks[j]);
      }
    }
  }
}
