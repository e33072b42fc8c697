/** `TwoLevelIterator`: a cursor over the concatenation of the blocks that an index lists
    (table/two_level_iterator.cc, lines 15-169).  A version uses the same cursor over the files of a level
    (db/version_set.cc, lines 159-236).  Read errors are not part of this model. */
module TwoLevel {
  import opened DbFormat
  import opened Version
  import opened Cursor
  import opened Concatenation

  /** The keys of the index separate the blocks: no entry of a block comes after its index key, and every
      entry of a later block does. */
  ghost predicate Separates(index: seq<Entry>, blocks: seq<seq<Entry>>) {
    && |index| == |blocks|
    && (forall i, e :: 0 <= i < |blocks| && e in blocks[i] ==> !Less(index[i].key, e.key))
    && (forall i, j, e :: 0 <= i < j < |blocks| && e in blocks[j] ==> Less(index[i].key, e.key))
  }

  /** Seeking in the block that the index gives is seeking in the concatenation. */
  lemma SeekInBlock(index: seq<Entry>, blocks: seq<seq<Entry>>, target: InternalKey)
    requires Sorted(index) && Separates(index, blocks) && Sorted(Concat(blocks))
    ensures var i := FirstAtOrAfter(index, target);
      FirstAtOrAfter(Concat(blocks), target) ==
      if i < |blocks| then Before(blocks, i) + FirstAtOrAfter(blocks[i], target) else |Concat(blocks)|
  {
    var i := FirstAtOrAfter(index, target);
    BeforeAll(blocks);
    var p := if i < |blocks| then Before(blocks, i) + FirstAtOrAfter(blocks[i], target) else |Concat(blocks)|;
    if i < |blocks| {
      BeforeNext(blocks, i);
      BeforeGrows(blocks, i + 1, |blocks|);
    }
    forall q | 0 <= q < |Concat(blocks)| ensures q < p <==> Less(Concat(blocks)[q].key, target) {
      SeekSide(index, blocks, target, q);
    }
    FirstIsUnique(Concat(blocks), target, p);
  }

  lemma FirstIsUnique(es: seq<Entry>, target: InternalKey, p: nat)
    requires p <= |es| && forall q :: 0 <= q < |es| ==> (q < p <==> Less(es[q].key, target))
    ensures FirstAtOrAfter(es, target) == p
  {
    var f := FirstAtOrAfter(es, target);
    assert f < |es| ==> !Less(es[f].key, target);
    assert p < |es| ==> !Less(es[p].key, target);
  }

  lemma SeekSide(index: seq<Entry>, blocks: seq<seq<Entry>>, target: InternalKey, q: nat)
    requires Sorted(index) && Separates(index, blocks) && Sorted(Concat(blocks)) && q < |Concat(blocks)|
    ensures var i := FirstAtOrAfter(index, target);
      var p := if i < |blocks| then Before(blocks, i) + FirstAtOrAfter(blocks[i], target) else |Concat(blocks)|;
      q < p <==> Less(Concat(blocks)[q].key, target)
  {
    var i := FirstAtOrAfter(index, target);
    BeforeAll(blocks);
    hide Concat;
    var j, k := ConcatFrom(blocks, |blocks|, q);
    ConcatAt(blocks, |blocks|, j, k);
    assert blocks[..|blocks|] == blocks;
    var e := blocks[j][k];
    assert e in blocks[j] && Concat(blocks)[q] == e;
    if j < i {
      BeforeNext(blocks, j);
      BeforeGrows(blocks, j + 1, i);
      assert Less(index[j].key, target) && !Less(index[j].key, e.key);
    } else if i < j {
      BeforeNext(blocks, i);
      BeforeGrows(blocks, i + 1, j);
      assert !Less(index[i].key, target) && Less(index[i].key, e.key);
    } else {
      BlockSorted(blocks, i);
      var f := FirstAtOrAfter(blocks[i], target);
      assert f < k ==> Less(blocks[i][f].key, e.key);
    }
  }

  lemma BlockSorted(blocks: seq<seq<Entry>>, i: nat)
    requires Sorted(Concat(blocks)) && i < |blocks|
    ensures Sorted(blocks[i])
  {
    assert blocks[..|blocks|] == blocks;
    forall k, l | 0 <= k < l < |blocks[i]| ensures Less(blocks[i][k].key, blocks[i][l].key) {
      ConcatAt(blocks, |blocks|, i, k);
      ConcatAt(blocks, |blocks|, i, l);
    }
  }

  // ---------- the cursor ----------

  class TwoLevelCursor {
    const index: EntryCursor
    /** What the block function returns for a handle, that is, for a value of the index. */
    const block: Val -> seq<Entry>
    var data: EntryCursor?
    var handle: Val
    ghost var place: int

    ghost function Blocks(): seq<seq<Entry>> {
      seq(|index.entries|, i requires 0 <= i < |index.entries| => block(index.entries[i].val))
    }

    ghost function Flat(): seq<Entry> {
      Concat(Blocks())
    }

    ghost predicate Static() {
      Separates(index.entries, Blocks()) && Sorted(Flat())
    }

    predicate Valid()
      reads this, data
    {
      data != null && data.Valid()
    }

    /** The data cursor is a cursor over the block of the handle, and there is none beyond the index. */
    ghost predicate Ok()
      reads this, index, data
    {
      && Static()
      && index.Ok()
      && (data != null ==> data != index && data.Ok() && data.entries == block(handle))
    }

    ghost predicate OnBlock()
      reads this, index, data
    {
      && Ok()
      && (data != null <==> index.Valid())
      && (index.Valid() ==> handle == index.Value())
    }

    /** The cursor stands at its place of the concatenation. */
    ghost predicate Tracks()
      reads this, index, data
    {
      && OnBlock()
      && (Valid() <==> 0 <= place < |Flat()|)
      && (Valid() ==> place == Before(Blocks(), index.pos) + data.pos && Flat()[place] == data.entries[data.pos])
    }

    constructor (index: EntryCursor, block: Val -> seq<Entry>)
      requires index.Ok()
      requires var blocks := seq(|index.entries|, i requires 0 <= i < |index.entries| => block(index.entries[i].val));
        Separates(index.entries, blocks) && Sorted(Concat(blocks))
      ensures Ok() && !Valid() && this.index == index && this.block == block
    {
      this.index, this.block := index, block;
      data, handle, place := null, "", -1;
      new;
      assert Blocks() == seq(|index.entries|, i requires 0 <= i < |index.entries| => block(index.entries[i].val));
    }

    method InitDataBlock()
      requires Ok()
      modifies this
      ensures OnBlock() && place == old(place)
      ensures data != null && data != old(data) ==> fresh(data)
    {
      if !index.Valid() {
        data := null;
      } else {
        var h := index.Value();
        if data != null && h == handle {
        } else {
          assert Blocks()[index.pos] == block(h);
          BlockSorted(Blocks(), index.pos);
          data := new EntryCursor(block(h));
          handle := h;
        }
      }
    }

    /** `p` is where the cursor is, counting on from the start of the block even past its end. */
    ghost predicate Ahead(p: int)
      reads this, index, data
    {
      OnBlock() && p == if data == null then |Flat()| else Before(Blocks(), index.pos) + data.pos
    }

    /** `p` is where the cursor is, counting back from the start of the block if it is off the block. */
    ghost predicate Behind(p: int)
      reads this, index, data
    {
      OnBlock() &&
      p == if data == null then -1
           else Before(Blocks(), index.pos) + if data.Valid() then data.pos else -1
    }

    lemma ValidTracks(p: int)
      requires OnBlock() && Valid() && p == Before(Blocks(), index.pos) + data.pos
      ensures 0 <= p < |Flat()| && Flat()[p] == data.entries[data.pos]
    {
      var blocks := Blocks();
      BeforeAll(blocks);
      assert blocks[..|blocks|] == blocks && blocks[index.pos] == data.entries;
      ConcatAt(blocks, |blocks|, index.pos, data.pos);
    }

    method SkipEmptyDataBlocksForward(ghost p: nat)
      requires Ahead(p)
      modifies this, index, data
      ensures Tracks() && place == p && (data == old(data) || data == null || fresh(data))
    {
      hide Separates, Sorted, Before, Concat;
      while data == null || !data.Valid()
        invariant Ahead(p) && (data == old(data) || data == null || fresh(data))
        decreases if index.Valid() then |index.entries| - index.pos else 0
      {
        if !index.Valid() {
          data := null;
          place := p;
          return;
        }
        assert Blocks()[index.pos] == data.entries;
        BeforeNext(Blocks(), index.pos);
        BeforeAll(Blocks());
        index.Next();
        InitDataBlock();
        if data != null {
          data.SeekToFirst();
        }
      }
      place := p;
      ValidTracks(p);
    }

    method SkipEmptyDataBlocksBackward(ghost p: int)
      requires Behind(p)
      modifies this, index, data
      ensures Tracks() && place == p && (data == old(data) || data == null || fresh(data))
    {
      hide Separates, Sorted, Before, Concat;
      while data == null || !data.Valid()
        invariant Behind(p) && (data == old(data) || data == null || fresh(data))
        decreases if index.Valid() then index.pos + 1 else 0
      {
        if !index.Valid() {
          data := null;
          place := p;
          return;
        }
        BeforeAll(Blocks());
        if index.pos > 0 {
          BeforeNext(Blocks(), index.pos - 1);
        }
        index.Prev();
        InitDataBlock();
        if data != null {
          assert Blocks()[index.pos] == data.entries;
          data.SeekToLast();
        }
      }
      place := p;
      ValidTracks(p);
    }

    method Seek(target: InternalKey)
      requires Ok()
      modifies this, index, data
      ensures Tracks() && place == FirstAtOrAfter(Flat(), target)
      ensures data == old(data) || data == null || fresh(data)
    {
      SeekInBlock(index.entries, Blocks(), target);
      index.Seek(target);
      InitDataBlock();
      if data != null {
        assert Blocks()[index.pos] == data.entries;
        data.Seek(target);
      }
      SkipEmptyDataBlocksForward(FirstAtOrAfter(Flat(), target));
    }

    method SeekToFirst()
      requires Ok()
      modifies this, index, data
      ensures Tracks() && place == 0
      ensures data == old(data) || data == null || fresh(data)
    {
      BeforeAll(Blocks());
      index.SeekToFirst();
      InitDataBlock();
      if data != null {
        data.SeekToFirst();
      }
      SkipEmptyDataBlocksForward(0);
    }

    method SeekToLast()
      requires Ok()
      modifies this, index, data
      ensures Tracks() && place == |Flat()| - 1
      ensures data == old(data) || data == null || fresh(data)
    {
      BeforeAll(Blocks());
      index.SeekToLast();
      InitDataBlock();
      if data != null {
        assert Blocks()[index.pos] == data.entries;
        BeforeNext(Blocks(), index.pos);
        data.SeekToLast();
      }
      SkipEmptyDataBlocksBackward(|Flat()| - 1);
    }

    method Next()
      requires Tracks() && Valid()
      modifies this, index, data
      ensures Tracks() && place == old(place) + 1
      ensures data == old(data) || data == null || fresh(data)
    {
      data.Next();
      SkipEmptyDataBlocksForward(place + 1);
    }

    method Prev()
      requires Tracks() && Valid()
      modifies this, index, data
      ensures Tracks() && place == old(place) - 1
      ensures data == old(data) || data == null || fresh(data)
    {
      data.Prev();
      SkipEmptyDataBlocksBackward(place - 1);
    }

    method Key() returns (k: InternalKey)
      requires Tracks() && Valid()
      ensures k == Flat()[place].key
    {
      k := data.Key();
    }

    method Value() returns (v: Val)
      requires Tracks() && Valid()
      ensures v == Flat()[place].val
    {
      v := data.Value();
    }
  }
}
