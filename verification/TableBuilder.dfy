/** Building a table (table/table_builder.cc, lines 60-262).

    The index entry of a block is added only when the first key of the next block is known, so that it can be
    shortened.  Sizes are bounded so that they fit into the 32-bit and 64-bit fields of the formats. */
module TableBuilder {
  import opened DbFormat
  import opened Coding
  import opened Comparator
  import opened Concatenation
  import opened Block
  import opened BlockIter
  import opened Table
  import Bloom
  import FilterBlock

  const MAX_ITEM := 0x4000_0000
  const MAX_FILE := 0x8000_0000_0000_0000

  function LastKey(ps: seq<Pair>): Bytes
    requires ps != []
  {
    ps[|ps| - 1].key
  }

  function NextKey(blocks: seq<seq<Pair>>, i: nat): Option<Bytes> {
    if i < |blocks| && blocks[i] != [] then Some(blocks[i][0].key) else None
  }

  /** Blocks, the last of which may still grow, with index keys for all but the last. */
  ghost predicate Partial(blocks: seq<seq<Pair>>, seps: seq<Bytes>) {
    && |seps| == (if blocks == [] then 0 else |blocks| - 1)
    && (forall i :: 0 <= i < |blocks| ==> blocks[i] != [])
    && Ascending(InternalLess, Concat(blocks))
    && (forall i :: 0 <= i < |seps| ==> Separator(LastKey(blocks[i]), seps[i], NextKey(blocks, i + 1)))
  }

  lemma ConcatLast(blocks: seq<seq<Pair>>, ps: seq<Pair>)
    ensures Concat(blocks + [ps]) == Concat(blocks) + ps
  {
    assert (blocks + [ps])[..|blocks|] == blocks;
  }

  lemma LastOfAll(blocks: seq<seq<Pair>>)
    requires blocks != [] && blocks[|blocks| - 1] != []
    ensures Concat(blocks) != [] && LastKey(Concat(blocks)) == LastKey(blocks[|blocks| - 1])
  {
  }

  lemma AscendingAppend(all: seq<Pair>, p: Pair)
    requires Ascending(InternalLess, all) && (all != [] ==> InternalLess(LastKey(all), p.key))
    ensures Ascending(InternalLess, all + [p])
  {
    InternalOrder();
    hide InternalLess;
  }

  /** A pair added to the last block. */
  lemma PartialGrows(blocks: seq<seq<Pair>>, ps: seq<Pair>, seps: seq<Bytes>, p: Pair)
    requires Partial(blocks + [ps], seps) && InternalLess(LastKey(ps), p.key)
    ensures Partial(blocks + [ps + [p]], seps)
  {
    hide InternalLess, Separator;
    var before, after := blocks + [ps], blocks + [ps + [p]];
    assert ps == before[|blocks|];
    ConcatLast(blocks, ps);
    ConcatLast(blocks, ps + [p]);
    assert Concat(after) == Concat(before) + [p];
    LastOfAll(before);
    AscendingAppend(Concat(before), p);
    forall i | 0 <= i < |seps| ensures Separator(LastKey(after[i]), seps[i], NextKey(after, i + 1)) {
      assert after[i] == before[i] && NextKey(after, i + 1) == NextKey(before, i + 1);
    }
  }

  /** The first pair of a new block, and the index key of the block before it. */
  lemma PartialStarts(blocks: seq<seq<Pair>>, seps: seq<Bytes>, sep: Bytes, p: Pair)
    requires Partial(blocks, seps)
    requires blocks != [] ==> InternalLess(LastKey(blocks[|blocks| - 1]), p.key) &&
                              Separator(LastKey(blocks[|blocks| - 1]), sep, Some(p.key))
    ensures Partial(blocks + [[p]], if blocks == [] then seps else seps + [sep])
  {
    hide InternalLess, Separator;
    ConcatLast(blocks, [p]);
    if blocks != [] {
      LastOfAll(blocks);
    } else {
      assert Concat(blocks) == [];
    }
    AscendingAppend(Concat(blocks), p);
  }

  /** With the index key of the last block, all blocks are separated. */
  lemma PartialDone(blocks: seq<Written>, seps: seq<Bytes>, sep: Bytes)
    requires Partial(PairsOf(blocks), seps) && blocks != []
    requires Separator(LastKey(blocks[|blocks| - 1].pairs), sep, None)
    ensures Separated(blocks, seps + [sep])
  {
    hide InternalLess, Separator, Ascending;
    var ps := PairsOf(blocks);
    forall i | 0 <= i < |blocks| ensures Separator(Last(blocks[i]), (seps + [sep])[i], FirstKey(blocks, i + 1)) {
      assert blocks[i].pairs == ps[i];
      if i < |seps| {
        assert Separator(LastKey(ps[i]), seps[i], NextKey(ps, i + 1));
      }
    }
  }

  lemma NothingSeparated()
    ensures Separated([], [])
  {
    assert PairsOf([]) == [];
  }

  // ---------- sizes ----------

  /** Every key and value is of moderate size. */
  predicate Moderate(ps: seq<Pair>) {
    forall i :: 0 <= i < |ps| ==> |ps[i].key| < MAX_ITEM && |ps[i].val| < MAX_ITEM
  }

  lemma {:induction false} StartsBound(starts: seq<nat>, n: nat, i: nat)
    requires StartsOk(starts, n) && i < |starts|
    ensures starts[i] >= i
  {
    if i > 0 {
      StartsBound(starts, n, i - 1);
    }
  }

  lemma BlockFits(pairs: seq<Pair>, starts: seq<nat>)
    requires Moderate(pairs) && StartsOk(starts, |pairs|) && Offset(pairs, starts, |pairs|) < TWO_32
    ensures SizesFit(pairs, starts)
  {
    DataEmpty(pairs, starts, |pairs|);
    StartsBound(starts, |pairs|, |starts| - 1);
  }

  // ---------- the filter ----------

  /** The key belongs, or will belong, to the filter of the block at `offset`. */
  predicate Filtered(groups: seq<seq<Bytes>>, current: seq<Bytes>, offset: nat, key: Bytes) {
    var i := offset / FilterBlock.BASE;
    if i < |groups| then key in groups[i] else i == |groups| && key in current
  }

  ghost predicate AllFiltered(groups: seq<seq<Bytes>>, current: seq<Bytes>, offset: nat, ps: seq<Pair>) {
    forall i :: 0 <= i < |ps| ==> Filtered(groups, current, offset, ps[i].key)
  }

  /** Closing the current group does not lose keys. */
  lemma StillFiltered(groups: seq<seq<Bytes>>, current: seq<Bytes>, more: seq<seq<Bytes>>, offset: nat, ps: seq<Pair>)
    requires AllFiltered(groups, current, offset, ps) && groups + [current] <= more
    ensures AllFiltered(more, [], offset, ps)
  {
    forall i | 0 <= i < |ps| ensures Filtered(more, [], offset, ps[i].key) {
      assert Filtered(groups, current, offset, ps[i].key);
      var g := offset / FilterBlock.BASE;
      if g < |groups| {
        assert more[g] == (groups + [current])[g];
      } else {
        assert more[g] == (groups + [current])[g] == current;
      }
    }
  }

  lemma KeyFiltered(groups: seq<seq<Bytes>>, current: seq<Bytes>, key: Bytes, offset: nat, ps: seq<Pair>)
    requires AllFiltered(groups, current, offset, ps)
    ensures AllFiltered(groups, current + [key], offset, ps)
  {
    forall i | 0 <= i < |ps| ensures Filtered(groups, current + [key], offset, ps[i].key) {
      assert Filtered(groups, current, offset, ps[i].key);
    }
  }

  // ---------- the builder ----------

  function WithOpen(b: seq<seq<Pair>>, d: seq<Pair>): seq<seq<Pair>> {
    b + if d == [] then [] else [d]
  }

  /** Written blocks `b`, the block being built `d`, and what the builder remembers of them. */
  ghost predicate Shape(b: seq<seq<Pair>>, d: seq<Pair>, seps: seq<Bytes>, pending: bool, lastKey: Bytes) {
    && Partial(WithOpen(b, d), seps)
    && (pending <==> d == [] && b != [])
    && (WithOpen(b, d) != [] ==> lastKey == LastKey(WithOpen(b, d)[|WithOpen(b, d)| - 1]))
    && |lastKey| < MAX_ITEM
  }

  lemma ShapeLast(b: seq<seq<Pair>>, d: seq<Pair>, seps: seq<Bytes>, pending: bool, lastKey: Bytes)
    requires Shape(b, d, seps, pending, lastKey)
    ensures var all := Concat(WithOpen(b, d));
      && (all != [] ==> LastKey(all) == lastKey)
      && (all == [] <==> WithOpen(b, d) == [])
      && (pending ==> |seps| == |b| - 1 && all != [])
      && |seps| <= |b| && |lastKey| < MAX_ITEM
  {
    hide InternalLess, Separator;
    if WithOpen(b, d) != [] {
      LastOfAll(WithOpen(b, d));
    }
  }

  /** What adding a pair does to the blocks and index keys. */
  lemma ShapeAdded(b: seq<seq<Pair>>, d: seq<Pair>, seps: seq<Bytes>, pending: bool, last: Bytes, p: Pair, sep: Bytes)
    requires Shape(b, d, seps, pending, last) && |p.key| < MAX_ITEM
    requires Concat(WithOpen(b, d)) != [] ==> InternalLess(last, p.key)
    requires pending ==> Separator(last, sep, Some(p.key))
    ensures Shape(b, d + [p], if pending then seps + [sep] else seps, false, p.key)
    ensures Concat(WithOpen(b, d + [p])) == Concat(WithOpen(b, d)) + [p]
  {
    hide InternalLess, Separator;
    ShapeLast(b, d, seps, pending, last);
    ConcatLast(b, d + [p]);
    if d == [] {
      assert b + [] == b && d + [p] == [p];
      PartialStarts(b, seps, sep, p);
    } else {
      ConcatLast(b, d);
      PartialGrows(b, d, seps, p);
      assert Concat(b) + (d + [p]) == Concat(b) + d + [p];
    }
  }

  lemma NothingShaped()
    ensures Shape(PairsOf([]), [], [], false, []) && IndexPairs([], []) == [] && Concat(WithOpen(PairsOf([]), [])) == []
  {
  }

  /** Writing the block changes nothing but where it is. */
  lemma ShapeFlushed(b: seq<seq<Pair>>, d: seq<Pair>, seps: seq<Bytes>, pending: bool, lastKey: Bytes)
    requires Shape(b, d, seps, pending, lastKey) && d != []
    ensures Shape(b + [d], [], seps, true, lastKey) && WithOpen(b + [d], []) == WithOpen(b, d)
  {
    assert b + [d] + [] == b + [d];
  }

  /** The block has reached the size at which blocks end, and had not before its last pair. */
  predicate Full(blockSize: nat, w: Written) {
    && w.handle.size >= blockSize
    && (|w.pairs| > 1 ==> SizeOf(w.pairs[..|w.pairs| - 1], StartsBefore(w.starts, |w.pairs|)) < blockSize)
  }

  lemma NowFull(blockSize: nat, w: Written, pairs: seq<Pair>, starts: seq<nat>, p: Pair)
    requires w.pairs == pairs + [p] && StartsBefore(w.starts, |w.pairs|) == starts
    requires pairs == [] || SizeOf(pairs, starts) < blockSize
    requires w.handle.size == SizeOf(w.pairs, w.starts) >= blockSize
    ensures Full(blockSize, w)
  {
    hide SizeOf, StartsBefore;
    assert w.pairs[..|w.pairs| - 1] == pairs;
  }

  class Builder {
    const crc: Checksum
    const blockSize: nat
    const create: FilterBlock.Create
    const filter: FilterBlock.FilterBlockBuilder?
    const dataBlock: BlockBuilder
    const indexBlock: BlockBuilder
    var file: Bytes
    var lastKey: Bytes
    var pendingIndexEntry: bool
    var pendingHandle: BlockHandle
    /** The blocks written so far, and the keys of their index entries. */
    ghost var blocks: seq<Written>
    ghost var seps: seq<Bytes>

    /** The pairs of all blocks, the one being built included. */
    ghost function Open(): seq<seq<Pair>>
      reads this, dataBlock
    {
      WithOpen(PairsOf(blocks), dataBlock.pairs)
    }

    ghost predicate FilterTracks(d: seq<Pair>)
      reads this, filter
    {
      filter != null ==>
        && filter.Valid() && filter.create == create
        && |filter.groups| == |file| / FilterBlock.BASE
        && AllFiltered(filter.groups, filter.current, |file|, d)
        && forall i :: 0 <= i < |blocks| ==>
             AllFiltered(filter.groups, filter.current, blocks[i].handle.offset, blocks[i].pairs)
    }

    ghost predicate Stored()
      reads this
    {
      |file| < TWO_64 && forall i :: 0 <= i < |blocks| ==> StoredBlock(crc, file, blocks[i])
    }

    ghost predicate IndexTracks()
      reads this, indexBlock
    {
      && |seps| <= |blocks|
      && indexBlock.pairs == IndexPairs(blocks, seps)
      && (pendingIndexEntry ==>
            && blocks != [] && pendingHandle == blocks[|blocks| - 1].handle
            && pendingHandle.offset < TWO_64 && pendingHandle.size < TWO_64)
    }

    ghost predicate Inv()
      reads this, dataBlock, indexBlock, filter
    {
      && dataBlock != indexBlock && dataBlock.Valid() && indexBlock.Valid()
      && blockSize <= MAX_ITEM
      && Shape(PairsOf(blocks), dataBlock.pairs, seps, pendingIndexEntry, lastKey)
      && Moderate(dataBlock.pairs)
      && IndexTracks()
      && Stored()
      && FilterTracks(dataBlock.pairs)
    }

    ghost predicate Valid()
      reads this, dataBlock, indexBlock, filter
    {
      Inv() && Room() && forall i :: 0 <= i < |blocks| ==> Full(blockSize, blocks[i])
    }

    /** The block being built is not full. */
    ghost predicate Room()
      reads this, dataBlock
    {
      dataBlock.pairs == [] || SizeOf(dataBlock.pairs, dataBlock.starts) < blockSize
    }

    /** Everything that has been added. */
    ghost function All(): seq<Pair>
      reads this, dataBlock
    {
      Concat(Open())
    }

    constructor (crc: Checksum, blockSize: nat, interval: nat, create: FilterBlock.Create, useFilter: bool)
      requires interval >= 1 && blockSize <= MAX_ITEM
      ensures Valid() && fresh(dataBlock) && fresh(indexBlock) && (filter != null ==> fresh(filter))
      ensures this.crc == crc && this.create == create && this.blockSize == blockSize && file == []
      ensures All() == [] && (filter != null <==> useFilter)
    {
      hide Shape, AllFiltered, StoredBlock, IndexPairs, BlockBuilder.Valid, FilterBlock.FilterBlockBuilder.Valid;
      this.crc, this.blockSize, this.create := crc, blockSize, create;
      dataBlock := new BlockBuilder(interval);
      indexBlock := new BlockBuilder(1);
      var f: FilterBlock.FilterBlockBuilder? := null;
      if useFilter {
        f := new FilterBlock.FilterBlockBuilder(create);
      }
      filter := f;
      file, lastKey, pendingIndexEntry, pendingHandle := [], [], false, BlockHandle(0, 0);
      blocks, seps := [], [];
      new;
      NothingShaped();
      NothingFiltered([], [], 0);
    }

    /** The index entry of the last block, now that the key after it is known. */
    method AddIndexEntry(key: Bytes)
      requires indexBlock.Valid() && IndexTracks() && pendingIndexEntry && |seps| == |blocks| - 1
      requires InternalLess(lastKey, key) && |lastKey| < MAX_ITEM
      modifies this`lastKey, this`pendingIndexEntry, this`seps, indexBlock
      ensures indexBlock.Valid() && IndexTracks() && !pendingIndexEntry
      ensures seps == old(seps) + [lastKey] && |lastKey| < MAX_ITEM
      ensures Separator(old(lastKey), lastKey, Some(key))
    {
      hide InternalLess, EncodeHandle, IndexPairs, BlockBuilder.Valid;
      lastKey := InternalSeparator(lastKey, key);
      HandleLength(pendingHandle);
      IndexAppended(blocks, seps, lastKey);
      indexBlock.Add(lastKey, EncodeHandle(pendingHandle));
      seps := seps + [lastKey];
      pendingIndexEntry := false;
    }

    method Add(key: Bytes, value: Bytes)
      requires Valid() && |key| < MAX_ITEM && |value| < MAX_ITEM && |file| < MAX_FILE
      requires All() != [] ==> InternalLess(LastKey(All()), key)
      modifies this, dataBlock, indexBlock, filter
      ensures Valid() && All() == old(All()) + [Pair(key, value)]
    {
      hide InternalLess, Shape, StoredBlock, Separator, AllFiltered, Concat, WithOpen, IndexPairs, BlockBuilder.Valid,
           FilterBlock.FilterBlockBuilder.Valid, Moderate, PairsOf;
      ghost var p := Pair(key, value);
      ghost var b, d, s, k, pending := PairsOf(blocks), dataBlock.pairs, seps, lastKey, pendingIndexEntry;
      ghost var starts := dataBlock.starts;
      SmallBlock();
      ShapeLast(b, d, s, pending, k);
      if pendingIndexEntry {
        AddIndexEntry(key);
      }
      ShapeAdded(b, d, s, pending, k, p, lastKey);
      FilterKey(key, d, value);
      lastKey := key;
      AddToBlock(key, value);
      if dataBlock.CurrentSizeEstimate() >= blockSize {
        FlushFull(d, starts, p);
      }
    }

    /** Writes the block that the last pair has made full. */
    method FlushFull(ghost d: seq<Pair>, ghost starts: seq<nat>, ghost p: Pair)
      requires Inv() && |dataBlock.buffer| < TWO_32 && |file| < MAX_FILE
      requires dataBlock.pairs == d + [p] && StartsBefore(dataBlock.starts, |dataBlock.pairs|) == starts
      requires d == [] || SizeOf(d, starts) < blockSize
      requires SizeOf(dataBlock.pairs, dataBlock.starts) >= blockSize
      requires forall i :: 0 <= i < |blocks| ==> Full(blockSize, blocks[i])
      modifies this, dataBlock, filter
      ensures Valid() && Open() == old(Open())
    {
      hide Builder.Inv, SizeOf, StartsBefore, Full, WithOpen, PairsOf;
      Flush();
      NowFull(blockSize, blocks[|blocks| - 1], d, starts, p);
    }

    /** Adds the pair to the block being built. */
    method AddToBlock(key: Bytes, value: Bytes)
      requires dataBlock.Valid() && Moderate(dataBlock.pairs) && |key| < MAX_ITEM && |value| < MAX_ITEM
      requires |dataBlock.buffer| <= MAX_ITEM
      modifies dataBlock
      ensures dataBlock.Valid() && dataBlock.pairs == old(dataBlock.pairs) + [Pair(key, value)]
      ensures Moderate(dataBlock.pairs) && |dataBlock.buffer| < TWO_32
      ensures StartsBefore(dataBlock.starts, |dataBlock.pairs|) == old(dataBlock.starts)
    {
      hide StartsBefore;
      dataBlock.Add(key, value);
    }

    /** Gives the key to the filter, if there is one. */
    method FilterKey(key: Bytes, ghost d: seq<Pair>, ghost value: Bytes)
      requires FilterTracks(d)
      modifies filter
      ensures FilterTracks(d + [Pair(key, value)])
    {
      hide AllFiltered;
      if filter != null {
        ghost var groups, current := filter.groups, filter.current;
        PairFiltered(groups, current, Pair(key, value), |file|, d);
        forall i | 0 <= i < |blocks| ensures AllFiltered(groups, current + [key], blocks[i].handle.offset, blocks[i].pairs) {
          KeyFiltered(groups, current, key, blocks[i].handle.offset, blocks[i].pairs);
        }
        filter.AddKey(key);
      }
    }

    /** Appends a block to the file. */
    method WriteRawBlock(contents: Bytes) returns (h: BlockHandle)
      requires Stored() && |file| <= MAX_FILE && |contents| < 8 * TWO_32
      modifies this`file
      ensures Stored() && file == old(file) + RawBlock(crc, contents)
      ensures h.offset == |old(file)| && h.size == |contents| && Holds(crc, file, h, contents)
    {
      hide RawBlock, BlockImage, StartsOk, SizesFit;
      h := BlockHandle(|file|, |contents|);
      ghost var before, raw := file, RawBlock(crc, contents);
      RawBlockReads(crc, contents);
      forall i | 0 <= i < |blocks| ensures StoredBlock(crc, before + raw, blocks[i]) {
        HoldsLater(crc, before, blocks[i].handle, BlockImage(blocks[i].pairs, blocks[i].starts), raw);
      }
      file := file + RawBlock(crc, contents);
      assert file[h.offset..h.offset + h.size + BLOCK_TRAILER] == raw;
    }

    lemma BlockFitsNow()
      requires dataBlock.Valid() && Moderate(dataBlock.pairs) && |dataBlock.buffer| < TWO_32
      ensures StartsOk(dataBlock.starts, |dataBlock.pairs|) && SizesFit(dataBlock.pairs, dataBlock.starts)
    {
      BlockFits(dataBlock.pairs, dataBlock.starts);
    }

    /** The next block begins at the end of the file. */
    method StartFilterBlock(ghost before: nat, ghost d: seq<Pair>)
      requires filter != null ==> filter.Valid() && |filter.groups| == before / FilterBlock.BASE && before <= |file|
      requires filter != null ==> filter.create == create
      requires filter != null ==> forall i :: 0 <= i < |blocks| ==>
        AllFiltered(filter.groups, filter.current, blocks[i].handle.offset, blocks[i].pairs)
      modifies filter
      ensures FilterTracks([])
    {
      hide AllFiltered, FilterBlock.FilterBlockBuilder.Valid;
      if filter != null {
        ghost var groups, current := filter.groups, filter.current;
        OffsetsGrow(before, |file|);
        filter.StartBlock(|file|);
        NothingFiltered(filter.groups, filter.current, |file|);
        if filter.groups != groups {
          forall i | 0 <= i < |blocks| ensures AllFiltered(filter.groups, [], blocks[i].handle.offset, blocks[i].pairs) {
            StillFiltered(groups, current, filter.groups, blocks[i].handle.offset, blocks[i].pairs);
          }
        }
      }
    }

    /** Writes the block being built.  Its index entry has to wait for the next key. */
    method Flush()
      requires Inv() && |dataBlock.buffer| < TWO_32 && |file| < MAX_FILE
      modifies this, dataBlock, filter
      ensures Inv() && dataBlock.pairs == [] && |dataBlock.buffer| == 0
      ensures Open() == old(Open()) && seps == old(seps) && lastKey == old(lastKey)
      ensures old(dataBlock.pairs) == [] ==> blocks == old(blocks)
      ensures old(dataBlock.pairs) != [] ==>
        && |blocks| == |old(blocks)| + 1 && blocks[..|blocks| - 1] == old(blocks)
        && var w := blocks[|blocks| - 1];
           && w.pairs == old(dataBlock.pairs) && w.starts == old(dataBlock.starts)
           && w.handle.size == SizeOf(w.pairs, w.starts)
    {
      hide Shape, StoredBlock, AllFiltered, WithOpen, BlockImage, Holds, IndexPairs, BlockBuilder.Valid,
           FilterBlock.FilterBlockBuilder.Valid, Moderate, PairsOf, StartsOk, SizesFit;
      hide Builder.Inv;
      InvParts();
      if dataBlock.Empty() {
        return;
      }
      ghost var b, d, before := PairsOf(blocks), dataBlock.pairs, |file|;
      ghost var w := WriteBlock();
      ShapeFlushed(b, d, seps, pendingIndexEntry, lastKey);
      BlockAppended(blocks, w, seps);
      pendingIndexEntry := true;
      blocks := blocks + [w];
      NothingFiltered([], [], 0);
      StartFilterBlock(before, d);
      InvWhole();
    }

    /** Finishes the open block and appends it to the file. */
    method WriteBlock() returns (ghost w: Written)
      requires dataBlock.Valid() && dataBlock.pairs != [] && Moderate(dataBlock.pairs) && |dataBlock.buffer| < TWO_32
      requires Stored() && |file| < MAX_FILE
      modifies this`file, this`pendingHandle, dataBlock
      ensures dataBlock.Valid() && dataBlock.pairs == [] && dataBlock.buffer == []
      ensures Stored() && |old(file)| <= |file|
      ensures w.handle == pendingHandle && w.pairs == old(dataBlock.pairs) && w.handle.offset == |old(file)|
      ensures w.starts == old(dataBlock.starts) && w.handle.size == SizeOf(w.pairs, w.starts)
      ensures StoredBlock(crc, file, w) && w.handle.offset < TWO_64 && w.handle.size < TWO_64
    {
      hide StoredBlock, BlockImage, Holds, BlockBuilder.Valid, Moderate, StartsOk, SizesFit, RawBlock;
      ghost var d, starts := dataBlock.pairs, dataBlock.starts;
      BlockFitsNow();
      ImageLength(d, starts);
      var contents := dataBlock.Finish();
      pendingHandle := WriteRawBlock(contents);
      dataBlock.Reset();
      w := Written(pendingHandle, d, starts);
      WrittenStored(crc, file, w);
    }

    lemma InvParts()
      requires Inv()
      ensures dataBlock != indexBlock && dataBlock.Valid() && indexBlock.Valid() && blockSize <= MAX_ITEM
      ensures Shape(PairsOf(blocks), dataBlock.pairs, seps, pendingIndexEntry, lastKey) && Moderate(dataBlock.pairs)
      ensures IndexTracks() && Stored() && FilterTracks(dataBlock.pairs)
    {
      hide Shape, BlockBuilder.Valid, Builder.FilterTracks, Builder.IndexTracks, Builder.Stored, Moderate;
    }

    lemma InvWhole()
      requires dataBlock != indexBlock && dataBlock.Valid() && indexBlock.Valid() && blockSize <= MAX_ITEM
      requires Shape(PairsOf(blocks), dataBlock.pairs, seps, pendingIndexEntry, lastKey) && Moderate(dataBlock.pairs)
      requires IndexTracks() && Stored() && FilterTracks(dataBlock.pairs)
      ensures Inv()
    {
      hide Shape, BlockBuilder.Valid, Builder.FilterTracks, Builder.IndexTracks, Builder.Stored, Moderate;
    }

    /** Ends the table: the last block, the filter, and the index with the entry of the last block. */
    method Finish() returns (index: Bytes, filterBlock: Option<Bytes>, ghost groups: seq<seq<Bytes>>)
      requires Valid() && |file| < MAX_FILE
      modifies this, dataBlock, indexBlock, filter
      ensures AllPairs(blocks) == old(All())
      ensures forall i :: 0 <= i < |blocks| - 1 ==> Full(blockSize, blocks[i])
      ensures SizesFit(indexBlock.pairs, indexBlock.starts) ==>
        TableOk(crc, file, index, blocks, seps, indexBlock.starts)
      ensures filterBlock.Some? <==> filter != null
      ensures FilterServes(filterBlock, create, groups, blocks)
    {
      hide Shape, StoredBlock, AllFiltered, BlockImage, Holds, IndexPairs, BlockBuilder.Valid, StartsOk, SizesFit,
           FilterBlock.FilterBlockBuilder.Valid, Moderate, InternalLess, FilterServes, Separated, EncodeHandle, Partial,
           TableOk, AllPairs, PairsOf, Concat, WithOpen;
      hide Builder.Inv, Builder.FilterTracks, Builder.IndexTracks;
      SmallBlock();
      Flush();
      AllWritten();
      filterBlock, groups := FinishFilter();
      FinishIndex();
      index := indexBlock.Finish();
      if SizesFit(indexBlock.pairs, indexBlock.starts) {
        TableDone(index);
      }
    }

    lemma SmallBlock()
      requires Valid()
      ensures |dataBlock.buffer| <= MAX_ITEM
    {
      hide Shape, BlockBuilder.Valid, Builder.FilterTracks, Builder.IndexTracks, Builder.Stored, SizeOf, Full;
      if dataBlock.Empty() {
        BufferEmpty();
      } else {
        var size := dataBlock.CurrentSizeEstimate();
      }
    }

    lemma BufferEmpty()
      requires dataBlock.Valid() && dataBlock.pairs == []
      ensures dataBlock.buffer == []
    {
    }

    /** When no block is open, all there is to do is the filter and the last index entry. */
    lemma AllWritten()
      requires Inv() && dataBlock.pairs == []
      ensures indexBlock.Valid() && IndexTracks() && Stored() && FilterTracks([])
      ensures AllPairs(blocks) == Concat(Open())
      ensures |lastKey| < MAX_ITEM && Partial(PairsOf(blocks), seps)
      ensures pendingIndexEntry <==> blocks != []
      ensures pendingIndexEntry ==> lastKey == LastKey(blocks[|blocks| - 1].pairs) && |seps| == |blocks| - 1
      ensures !pendingIndexEntry ==> Separated(blocks, seps)
    {
      hide Shape, BlockBuilder.Valid, Builder.FilterTracks, Builder.IndexTracks, Builder.Stored, Separated, Partial,
           AllPairs, Concat, WithOpen, PairsOf, Moderate;
      ShapeDone(blocks, dataBlock.pairs, seps, pendingIndexEntry, lastKey);
    }

    lemma TableDone(index: Bytes)
      requires indexBlock.Valid() && IndexTracks() && Stored() && Separated(blocks, seps)
      requires SizesFit(indexBlock.pairs, indexBlock.starts)
      requires index == BlockImage(indexBlock.pairs, indexBlock.starts)
      ensures TableOk(crc, file, index, blocks, seps, indexBlock.starts)
    {
      hide BlockBuilder.Valid, BlockImage, SizesFit, IndexPairs, Separated, StoredBlock, StartsOk;
      IndexShape();
    }

    /** The index entry of the last block. */
    method FinishIndex()
      requires indexBlock.Valid() && IndexTracks() && |lastKey| < MAX_ITEM && Partial(PairsOf(blocks), seps)
      requires pendingIndexEntry <==> blocks != []
      requires pendingIndexEntry ==> lastKey == LastKey(blocks[|blocks| - 1].pairs) && |seps| == |blocks| - 1
      requires !pendingIndexEntry ==> Separated(blocks, seps)
      modifies this`lastKey, this`pendingIndexEntry, this`seps, indexBlock
      ensures indexBlock.Valid() && IndexTracks() && Separated(blocks, seps)
    {
      hide IndexPairs, BlockBuilder.Valid, InternalLess, Separated, EncodeHandle, Partial, PairsOf;
      if pendingIndexEntry {
        ghost var last, s := lastKey, seps;
        lastKey := InternalSuccessor(lastKey);
        SuccessorSeparates(last, lastKey);
        ShapeEnds(blocks, s, last, lastKey);
        HandleLength(pendingHandle);
        IndexAppended(blocks, seps, lastKey);
        indexBlock.Add(lastKey, EncodeHandle(pendingHandle));
        seps := seps + [lastKey];
        pendingIndexEntry := false;
      }
    }

    lemma IndexShape()
      requires indexBlock.Valid() && IndexTracks() && Separated(blocks, seps)
      ensures |IndexPairs(blocks, seps)| == |seps| == |blocks| && StartsOk(indexBlock.starts, |seps|)
    {
    }

    method FinishFilter() returns (filterBlock: Option<Bytes>, ghost groups: seq<seq<Bytes>>)
      requires FilterTracks([])
      modifies filter
      ensures filterBlock.Some? <==> filter != null
      ensures FilterServes(filterBlock, create, groups, blocks)
    {
      hide AllFiltered, FilterBlock.FilterBlockBuilder.Valid, FilterBlock.Image, FilterOk;
      filterBlock, groups := None, [];
      if filter != null {
        groups := filter.AllGroups();
        ghost var g, c := filter.groups, filter.current;
        var f := filter.Finish();
        filterBlock := Some(f);
        forall matches | |FilterBlock.Filters(create, groups)| < TWO_32 && NoUserMissed(create, matches)
          ensures FilterOk(filterBlock, create, matches, groups, blocks)
        {
          FilterFits(filterBlock, create, matches, g, c, blocks);
        }
      } else {
        forall matches ensures FilterOk(filterBlock, create, matches, groups, blocks) {
          NoFilter(create, matches, groups, blocks);
        }
      }
    }
  }

  /** The policy lets a key pass if the filter was made for a key with the same user key. */
  ghost predicate NoUserMissed(create: FilterBlock.Create, matches: FilterBlock.Match) {
    forall keys, x, k :: x in keys && UserOf(k) == UserOf(x) ==> matches(k, create(keys))
  }

  /** If the filters fit into 32 bits, they serve every policy that goes with `create`. */
  ghost predicate FilterServes(filterBlock: Option<Bytes>, create: FilterBlock.Create, groups: seq<seq<Bytes>>,
                               blocks: seq<Written>)
  {
    |FilterBlock.Filters(create, groups)| < TWO_32 ==>
      (forall matches :: NoUserMissed(create, matches) ==> FilterOk(filterBlock, create, matches, groups, blocks))
  }

  lemma NoFilter(create: FilterBlock.Create, matches: FilterBlock.Match, groups: seq<seq<Bytes>>, blocks: seq<Written>)
    ensures FilterOk(None, create, matches, groups, blocks)
  {
  }

  lemma FilterFits(filter: Option<Bytes>, create: FilterBlock.Create, matches: FilterBlock.Match,
                   groups: seq<seq<Bytes>>, current: seq<Bytes>, blocks: seq<Written>)
    requires NoUserMissed(create, matches) && filter.Some?
    requires forall i :: 0 <= i < |blocks| ==> AllFiltered(groups, current, blocks[i].handle.offset, blocks[i].pairs)
    requires var all := if current == [] then groups else groups + [current];
      FilterBlock.WellFormed(create, all, filter.value)
    ensures var all := if current == [] then groups else groups + [current];
      FilterOk(filter, create, matches, all, blocks)
  {
    hide FilterBlock.WellFormed, UserOf;
    var all := if current == [] then groups else groups + [current];
    forall i, n, k | 0 <= i < |blocks| && 0 <= n < |blocks[i].pairs| && UserOf(k) == UserOf(blocks[i].pairs[n].key)
      ensures FilterBlock.Covers(create, matches, all, blocks[i].handle.offset, k)
    {
      assert AllFiltered(groups, current, blocks[i].handle.offset, blocks[i].pairs);
      assert Filtered(groups, current, blocks[i].handle.offset, blocks[i].pairs[n].key);
      var g := blocks[i].handle.offset / FilterBlock.BASE;
      assert g < |all| ==> blocks[i].pairs[n].key in all[g];
    }
  }

  lemma ShapeDone(blocks: seq<Written>, d: seq<Pair>, seps: seq<Bytes>, pending: bool, lastKey: Bytes)
    requires Shape(PairsOf(blocks), d, seps, pending, lastKey) && d == []
    ensures Concat(WithOpen(PairsOf(blocks), d)) == AllPairs(blocks)
    ensures Partial(PairsOf(blocks), seps) && |lastKey| < MAX_ITEM
    ensures pending <==> blocks != []
    ensures pending ==> lastKey == LastKey(blocks[|blocks| - 1].pairs) && |seps| == |blocks| - 1
    ensures !pending ==> Separated(blocks, seps)
  {
    hide InternalLess, Separator;
    assert PairsOf(blocks) + [] == PairsOf(blocks);
    if !pending {
      assert seps == [];
      NothingSeparated();
    }
  }

  lemma SuccessorSeparates(last: Bytes, sep: Bytes)
    requires !InternalLess(sep, last) && (sep == last || BytesLess(UserOf(last), UserOf(sep)))
    ensures Separator(last, sep, None)
  {
  }

  lemma ShapeEnds(blocks: seq<Written>, seps: seq<Bytes>, last: Bytes, sep: Bytes)
    requires Partial(PairsOf(blocks), seps) && blocks != [] && last == LastKey(blocks[|blocks| - 1].pairs)
    requires Separator(last, sep, None)
    ensures Separated(blocks, seps + [sep])
  {
    PartialDone(blocks, seps, sep);
  }

  lemma WrittenStored(crc: Checksum, file: Bytes, w: Written)
    requires w.pairs != [] && StartsOk(w.starts, |w.pairs|) && SizesFit(w.pairs, w.starts)
    requires Holds(crc, file, w.handle, BlockImage(w.pairs, w.starts))
    ensures StoredBlock(crc, file, w)
    ensures w.handle.offset < TWO_64 && w.handle.size < TWO_64
  {
    hide RawBlock, BlockImage, StartsOk, SizesFit;
  }

  lemma BlockAppended(blocks: seq<Written>, w: Written, seps: seq<Bytes>)
    requires |seps| <= |blocks|
    ensures PairsOf(blocks + [w]) == PairsOf(blocks) + [w.pairs]
    ensures IndexPairs(blocks + [w], seps) == IndexPairs(blocks, seps)
  {
    hide EncodeHandle;
  }

  lemma NothingFiltered(groups: seq<seq<Bytes>>, current: seq<Bytes>, offset: nat)
    ensures AllFiltered(groups, current, offset, []) && Moderate([])
  {
  }

  lemma OffsetsGrow(a: nat, b: nat)
    requires a <= b
    ensures a / FilterBlock.BASE <= b / FilterBlock.BASE
  {
  }

  lemma ImageLength(pairs: seq<Pair>, starts: seq<nat>)
    requires StartsOk(starts, |pairs|) && SizesFit(pairs, starts)
    ensures |BlockImage(pairs, starts)| < 8 * TWO_32 && |BlockImage(pairs, starts)| == SizeOf(pairs, starts)
  {
  }

  lemma IndexAppended(blocks: seq<Written>, seps: seq<Bytes>, sep: Bytes)
    requires |seps| < |blocks|
    ensures IndexPairs(blocks, seps + [sep]) ==
            IndexPairs(blocks, seps) + [Pair(sep, EncodeHandle(blocks[|seps|].handle))]
  {
    hide EncodeHandle;
  }

  lemma PairFiltered(groups: seq<seq<Bytes>>, current: seq<Bytes>, p: Pair, offset: nat, ps: seq<Pair>)
    requires AllFiltered(groups, current, offset, ps) && |groups| == offset / FilterBlock.BASE
    ensures AllFiltered(groups, current + [p.key], offset, ps + [p])
  {
    KeyFiltered(groups, current, p.key, offset, ps);
  }

  lemma HandleLength(h: BlockHandle)
    requires h.offset < TWO_64 && h.size < TWO_64
    ensures |EncodeHandle(h)| <= 20
  {
    Powers();
    VarintLength(h.offset, 10);
    VarintLength(h.size, 10);
  }

  // ---------- the filter policy ----------

  function UserKeys(keys: seq<Bytes>): (r: seq<Bytes>)
    ensures |r| == |keys| && forall i :: 0 <= i < |keys| ==> r[i] == UserOf(keys[i])
  {
    seq(|keys|, i requires 0 <= i < |keys| => UserOf(keys[i]))
  }

  /** `InternalFilterPolicy` over the Bloom filter: only user keys count, so a lookup key passes whenever the
      table has an entry for its user key. */
  lemma BloomMissesNoUser(hash: Bloom.Hash, probes: nat, bitsPerKey: nat)
    requires 1 <= probes <= Bloom.MAX_PROBES
    ensures NoUserMissed(keys => Bloom.Filter(hash, probes, bitsPerKey, UserKeys(keys)),
                         (key, filter) => Bloom.MayMatch(hash, UserOf(key), filter))
  {
    hide UserOf, Bloom.Filter, Bloom.MayMatch;
    forall keys, x, k | x in keys && UserOf(k) == UserOf(x)
      ensures Bloom.MayMatch(hash, UserOf(k), Bloom.Filter(hash, probes, bitsPerKey, UserKeys(keys)))
    {
      var i :| 0 <= i < |keys| && keys[i] == x;
      assert UserKeys(keys)[i] == UserOf(k);
      Bloom.NoFalseNegatives(hash, probes, bitsPerKey, UserKeys(keys), UserOf(k));
    }
  }

  // ---------- whole tables ----------

  /** Builds a table from strictly increasing keys. */
  method Build(crc: Checksum, blockSize: nat, interval: nat, create: FilterBlock.Create, useFilter: bool,
               pairs: seq<Pair>)
    returns (b: Builder, tooLarge: bool, index: Bytes, filterBlock: Option<Bytes>, ghost groups: seq<seq<Bytes>>)
    requires interval >= 1 && blockSize <= MAX_ITEM && Moderate(pairs) && Ascending(InternalLess, pairs)
    ensures b.crc == crc && b.create == create
    ensures tooLarge ==> |b.file| >= MAX_FILE
    ensures !tooLarge ==> AllPairs(b.blocks) == pairs && (useFilter <==> filterBlock.Some?)
    ensures !tooLarge ==> forall i :: 0 <= i < |b.blocks| - 1 ==> Full(blockSize, b.blocks[i])
    ensures !tooLarge && SizesFit(b.indexBlock.pairs, b.indexBlock.starts) ==>
      TableOk(crc, b.file, index, b.blocks, b.seps, b.indexBlock.starts)
    ensures !tooLarge ==> FilterServes(filterBlock, create, groups, b.blocks)
  {
    hide InternalLess, TableOk, SizesFit, FilterOk, Builder.Valid, Builder.All, FilterServes;
    b := new Builder(crc, blockSize, interval, create, useFilter);
    index, filterBlock, groups, tooLarge := [], None, [], false;
    for i := 0 to |pairs|
      invariant b.Valid() && b.crc == crc && b.create == create && b.blockSize == blockSize && b.All() == pairs[..i]
      invariant fresh(b) && fresh(b.dataBlock) && fresh(b.indexBlock) && (b.filter != null ==> fresh(b.filter))
      invariant b.filter != null <==> useFilter
    {
      if |b.file| >= MAX_FILE {
        tooLarge := true;
        return;
      }
      assert pairs[..i + 1] == pairs[..i] + [pairs[i]];
      b.Add(pairs[i].key, pairs[i].val);
    }
    assert pairs[..|pairs|] == pairs;
    if |b.file| >= MAX_FILE {
      tooLarge := true;
      return;
    }
    index, filterBlock, groups := b.Finish();
  }
}
