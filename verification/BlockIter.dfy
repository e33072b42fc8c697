/** `Block::Iter`: moving through a block and seeking in it (table/block.cc, lines 76-252). */
module BlockIter {
  import opened DbFormat
  import opened Coding
  import opened Comparator
  import opened Block

  /** Index of the first pair at or after the target. */
  function FirstPair(less: Comparison, pairs: seq<Pair>, target: Bytes): (i: nat)
    ensures i <= |pairs|
    ensures forall j :: 0 <= j < i ==> less(pairs[j].key, target)
    ensures i < |pairs| ==> !less(pairs[i].key, target)
  {
    if pairs == [] || !less(pairs[0].key, target) then 0 else 1 + FirstPair(less, pairs[1..], target)
  }

  lemma {:induction false} RestartWord(restarts: seq<Word>, i: nat)
    requires i < |restarts|
    ensures 4 * i + 4 <= |RestartArray(restarts)|
    ensures RestartArray(restarts)[4 * i..4 * i + 4] == EncodeFixed32(restarts[i])
  {
    hide EncodeFixed32;
    if i < |restarts| - 1 {
      var front := RestartArray(restarts[..|restarts| - 1]);
      RestartWord(restarts[..|restarts| - 1], i);
      assert RestartArray(restarts)[4 * i..4 * i + 4] == front[4 * i..4 * i + 4];
    }
  }

  lemma RestartAt(pairs: seq<Pair>, starts: seq<nat>, i: nat)
    requires StartsOk(starts, |pairs|) && SizesFit(pairs, starts) && i < |starts|
    ensures var n := Offset(pairs, starts, |pairs|);
      && n + 4 * i + 4 <= |BlockImage(pairs, starts)|
      && starts[i] <= |pairs|
      && DecodeFixed32(BlockImage(pairs, starts)[n + 4 * i..]) == Offset(pairs, starts, starts[i])
  {
    hide Data, RestartArray, RestartOffsets, BlockImage, EncodeFixed32, DecodeFixed32;
    var words := RestartOffsets(pairs, starts, |starts|);
    var d, a, t := Data(pairs, starts, |pairs|), RestartArray(words), EncodeFixed32(|starts|);
    ImageParts(pairs, starts);
    Grouped(d, a, t);
    RestartInImage(d, words, t, i);
  }

  lemma RestartInImage(d: Bytes, words: seq<Word>, t: Bytes, i: nat)
    requires i < |words|
    ensures var image := d + (RestartArray(words) + t);
      |d| + 4 * i + 4 <= |image| && DecodeFixed32(image[|d| + 4 * i..]) == words[i]
  {
    hide RestartArray, EncodeFixed32, DecodeFixed32;
    var a := RestartArray(words);
    RestartWord(words, i);
    var tail := (d + (a + t))[|d| + 4 * i..];
    assert tail[..4] == a[4 * i..4 * i + 4];
    assert tail == EncodeFixed32(words[i]) + tail[4..];
    Fixed32RoundTrip(words[i], tail[4..]);
  }

  class Iter {
    const less: Comparison
    const data: Bytes
    const restarts: nat
    const numRestarts: nat
    var current: nat
    var restartIndex: nat
    var key: Bytes
    var valueStart: nat
    var valueLength: nat
    ghost const pairs: seq<Pair>
    ghost const starts: seq<nat>

    ghost predicate Static() {
      && StartsOk(starts, |pairs|) && SizesFit(pairs, starts)
      && data == BlockImage(pairs, starts)
      && restarts == Off(|pairs|)
      && numRestarts == |starts|
      && Ascending(less, pairs) && WeakOrder(less)
    }

    ghost function Off(i: nat): nat
      requires i <= |pairs|
    {
      Offset(pairs, starts, i)
    }

    predicate Valid()
      reads this
    {
      current < restarts
    }

    /** The entry lies between two restart points. */
    ghost predicate InRegion(i: nat)
      reads this
    {
      restartIndex < |starts| && starts[restartIndex] <= i &&
      (restartIndex + 1 < |starts| ==> i <= starts[restartIndex + 1])
    }

    /** The iterator is at entry `i`. */
    ghost predicate At(i: nat)
      reads this
    {
      && Static() && i < |pairs|
      && current == Off(i)
      && key == pairs[i].key
      && valueStart + valueLength == Off(i + 1) <= |data|
      && data[valueStart..valueStart + valueLength] == pairs[i].val
      && InRegion(i)
    }

    /** The next entry to parse is entry `i`. */
    ghost predicate Poised(i: nat)
      reads this
    {
      && Static() && i <= |pairs|
      && valueStart + valueLength == Off(i)
      && restartIndex < |starts| && starts[restartIndex] <= i
      && (i < |pairs| ==> SharedLength(pairs, starts, i) <= |key| &&
                          key[..SharedLength(pairs, starts, i)] == pairs[i].key[..SharedLength(pairs, starts, i)])
    }

    ghost predicate AtEnd()
      reads this
    {
      Static() && current == restarts && restartIndex == numRestarts
    }

    /** At entry `i`, or past the last one. */
    ghost predicate AtPlace(i: nat)
      reads this
    {
      if i < |pairs| then At(i) else i == |pairs| && AtEnd()
    }

    constructor (less: Comparison, ghost pairs: seq<Pair>, ghost starts: seq<nat>, data: Bytes, restarts: nat, numRestarts: nat)
      requires StartsOk(starts, |pairs|) && SizesFit(pairs, starts) && data == BlockImage(pairs, starts)
      requires restarts == Offset(pairs, starts, |pairs|) && numRestarts == |starts|
      requires Ascending(less, pairs) && WeakOrder(less)
      ensures AtEnd() && this.pairs == pairs && this.less == less && this.starts == starts
    {
      this.less, this.data, this.restarts, this.numRestarts := less, data, restarts, numRestarts;
      this.pairs, this.starts := pairs, starts;
      current, restartIndex, key, valueStart, valueLength := restarts, numRestarts, [], 0, 0;
    }

    lemma RestartIs(index: nat)
      requires Static() && index < numRestarts
      ensures numRestarts == |starts| && starts[index] <= |pairs| && restarts + 4 * index + 4 <= |data|
      ensures DecodeFixed32(data[restarts + 4 * index..]) == Off(starts[index])
    {
      hide SizesFit, BlockImage, Ascending, WeakOrder, DecodeFixed32, StartsOk, Offset;
      RestartAt(pairs, starts, index);
    }

    function GetRestartPoint(index: nat): (r: nat)
      requires Static() && index < numRestarts
      ensures index < |starts| && starts[index] <= |pairs| && r == Off(starts[index])
    {
      hide Static, DecodeFixed32, Offset;
      RestartIs(index);
      DecodeFixed32(data[restarts + 4 * index..])
    }

    method Value() returns (v: Bytes)
      requires Valid() && valueStart + valueLength <= |data|
      ensures forall i: nat :: At(i) ==> v == pairs[i].val
    {
      v := data[valueStart..valueStart + valueLength];
    }

    method SeekToRestartPoint(index: nat)
      requires Static() && index < numRestarts
      modifies this
      ensures Poised(starts[index]) && restartIndex == index
    {
      hide SizesFit, BlockImage, Ascending, WeakOrder, Offset;
      key := [];
      restartIndex := index;
      valueStart, valueLength := GetRestartPoint(index), 0;
      assert starts[index] in starts;
      assert index + 1 < |starts| ==> starts[index] < starts[index + 1];
    }

    /** Parses entry `i`, or finds that there are no more entries. */
    method ParseNextKey(ghost i: nat) returns (more: bool)
      requires Poised(i)
      modifies this
      ensures AtPlace(i) && more == (i < |pairs|)
    {
      hide SizesFit, BlockImage, Ascending, WeakOrder, Offset, StartsOk, SharedLength;
      OffsetOrder(pairs, starts, i, |pairs|);
      current := valueStart + valueLength;
      if current >= restarts {
        current := restarts;
        restartIndex := numRestarts;
        return false;
      }
      LoadEntry(i);
      AdvanceRestart(i);
      more := true;
    }

    /** Rebuilds the key from the one before, and finds the value. */
    method LoadEntry(ghost i: nat)
      requires Static() && i < |pairs| && current == Off(i)
      requires SharedLength(pairs, starts, i) <= |key|
      requires key[..SharedLength(pairs, starts, i)] == pairs[i].key[..SharedLength(pairs, starts, i)]
      modifies this`key, this`valueStart, this`valueLength
      ensures key == pairs[i].key && valueStart + valueLength == Off(i + 1) <= |data|
      ensures data[valueStart..valueStart + valueLength] == pairs[i].val
    {
      hide SizesFit, BlockImage, Ascending, WeakOrder, Offset, StartsOk, SharedLength, HeaderAt;
      EntryParses(pairs, starts, i);
      var h := DecodeEntry(data, current, restarts);
      Rebuilt(key, pairs[i].key, SharedLength(pairs, starts, i));
      key := key[..h.value.shared] + data[h.value.keyStart..h.value.keyStart + h.value.nonShared];
      valueStart := h.value.keyStart + h.value.nonShared;
      valueLength := h.value.valueLength;
    }

    /** Moves on to the restart block of the entry. */
    method AdvanceRestart(ghost i: nat)
      requires Static() && i < |pairs| && current == Off(i)
      requires restartIndex < |starts| && starts[restartIndex] <= i
      modifies this`restartIndex
      ensures InRegion(i)
    {
      hide SizesFit, BlockImage, Ascending, WeakOrder, Offset;
      while restartIndex + 1 < numRestarts && GetRestartPoint(restartIndex + 1) < current
        invariant restartIndex < |starts| && starts[restartIndex] <= i
        decreases numRestarts - restartIndex
      {
        OffsetOrder(pairs, starts, starts[restartIndex + 1], i);
        restartIndex := restartIndex + 1;
      }
      if restartIndex + 1 < numRestarts {
        OffsetOrder(pairs, starts, starts[restartIndex + 1], i);
      }
    }

    lemma Onward(i: nat)
      requires At(i)
      ensures Poised(i + 1)
    {
      hide SizesFit, BlockImage, Ascending, WeakOrder, Offset, StartsOk, SharedLength;
      if i + 1 < |pairs| {
        var n := SharedLength(pairs, starts, i + 1);
        assert n <= |pairs[i].key|;
      }
    }

    method Next(ghost i: nat)
      requires At(i)
      modifies this
      ensures AtPlace(i + 1)
    {
      hide At, Poised;
      Onward(i);
      var more := ParseNextKey(i + 1);
    }

    /** Back to a restart point before the entry, and from there to the entry before it. */
    method Prev(ghost i: nat)
      requires At(i)
      modifies this
      ensures if i > 0 then At(i - 1) else AtEnd()
    {
      hide SizesFit, BlockImage, Ascending, WeakOrder, Offset;
      var original := current;
      while GetRestartPoint(restartIndex) >= original
        invariant restartIndex < numRestarts && Static() && original == Off(i)
        decreases restartIndex
      {
        OffsetOrder(pairs, starts, starts[restartIndex], i);
        if restartIndex == 0 {
          current := restarts;
          restartIndex := numRestarts;
          return;
        }
        restartIndex := restartIndex - 1;
      }
      OffsetOrder(pairs, starts, starts[restartIndex], i);
      ghost var j: nat := starts[restartIndex];
      SeekToRestartPoint(restartIndex);
      SkipTo(original, i, j);
    }

    /** Parses entries from entry `first` on until one ends at or after `stop`, the offset of entry `i`. */
    method SkipTo(stop: nat, ghost i: nat, ghost first: nat)
      requires Poised(first) && first <= i <= |pairs| && stop == Off(i) && (first == i ==> i == |pairs|)
      modifies this
      ensures if first < i then At(i - 1) else AtEnd()
    {
      hide Poised, Static, Offset;
      ghost var j := first;
      var more := ParseNextKey(j);
      while more && valueStart + valueLength < stop
        invariant first <= j && (more <==> j < i) && AtPlace(j) && (first < i ==> j < i)
        decreases i - j
      {
        BeforeStop(j, i);
        Onward(j);
        j := j + 1;
        more := ParseNextKey(j);
      }
      if j < i {
        BeforeStop(j, i);
      }
    }

    lemma BeforeStop(j: nat, i: nat)
      requires At(j) && i <= |pairs|
      ensures valueStart + valueLength < Off(i) <==> j + 1 < i
    {
      hide StartsOk, SizesFit, BlockImage, Ascending, WeakOrder, Offset;
      OffsetOrder(pairs, starts, j + 1, i);
    }

    method SeekToFirst()
      requires Static()
      modifies this
      ensures AtPlace(0)
    {
      hide SizesFit, BlockImage, Ascending, WeakOrder, Offset, SharedLength;
      SeekToRestartPoint(0);
      var more := ParseNextKey(0);
    }

    method SeekToLast()
      requires Static()
      modifies this
      ensures if pairs == [] then AtEnd() else At(|pairs| - 1)
    {
      hide SizesFit, BlockImage, Ascending, WeakOrder, Offset, SharedLength;
      ghost var j := starts[numRestarts - 1];
      SeekToRestartPoint(numRestarts - 1);
      SkipTo(restarts, |pairs|, j);
    }

    /** Decodes the key of a restart point. */
    method RestartKey(index: nat) returns (k: Bytes)
      requires Static() && 0 < index < numRestarts
      ensures starts[index] < |pairs| && k == pairs[starts[index]].key
    {
      hide SizesFit, BlockImage, Ascending, WeakOrder, Offset, SharedLength;
      EntryParses(pairs, starts, starts[index]);
      assert starts[index] in starts;
      var h := DecodeEntry(data, GetRestartPoint(index), restarts);
      k := data[h.value.keyStart..h.value.keyStart + h.value.nonShared];
      assert k == pairs[starts[index]].key[0..];
    }

    /** The region in which the search goes on. */
    ghost predicate Narrowed(target: Bytes, left: nat, right: nat) {
      && Static() && left <= right < |starts|
      && (left > 0 ==> starts[left] < |pairs| && less(pairs[starts[left]].key, target))
      && (forall j :: right < j < |starts| ==> starts[j] < |pairs| && !less(pairs[starts[j]].key, target))
    }

    method FindRestart(target: Bytes) returns (left: nat)
      requires Static()
      ensures left < numRestarts && Narrowed(target, left, left)
    {
      hide SizesFit, BlockImage, Offset;
      left := 0;
      var right: nat := numRestarts - 1;
      while left < right
        invariant Narrowed(target, left, right)
      {
        var mid := (left + right + 1) / 2;
        var midKey := RestartKey(mid);
        if less(midKey, target) {
          left := mid;
        } else {
          StartsAscend(mid);
          right := mid - 1;
        }
      }
    }

    lemma StartsAscend(mid: nat)
      requires Static() && mid < |starts|
      ensures forall j :: mid <= j < |starts| && starts[j] < |pairs| ==>
        starts[mid] < |pairs| && !less(pairs[starts[j]].key, pairs[starts[mid]].key)
      ensures forall j :: 0 < j < |starts| ==> starts[j] < |pairs|
    {
      hide SizesFit, BlockImage, Offset;
      forall j | mid <= j < |starts| && starts[j] < |pairs|
        ensures starts[mid] < |pairs| && !less(pairs[starts[j]].key, pairs[starts[mid]].key)
      {
        if mid < j {
          assert starts[mid] < starts[j];
        }
      }
    }

    /** Binary search for the last restart point before the target, then a linear search from there. */
    method Seek(target: Bytes)
      requires Static()
      modifies this
      ensures AtPlace(FirstPair(less, pairs, target))
    {
      hide SizesFit, BlockImage, Offset, Ascending, WeakOrder, StartsOk, SharedLength, FirstPair;
      var left := FindRestart(target);
      SeekToRestartPoint(left);
      ghost var i := starts[left];
      AllBefore(target, left);
      while true
        invariant Poised(i) && forall j :: 0 <= j < i ==> less(pairs[j].key, target)
        decreases |pairs| - i
      {
        var more := ParseNextKey(i);
        if !more {
          PlaceIs(less, pairs, target, i);
          return;
        }
        if !less(key, target) {
          PlaceIs(less, pairs, target, i);
          return;
        }
        Onward(i);
        i := i + 1;
      }
    }

    lemma AllBefore(target: Bytes, left: nat)
      requires Narrowed(target, left, left)
      ensures starts[left] <= |pairs| && forall j :: 0 <= j < starts[left] ==> less(pairs[j].key, target)
    {
    }
  }

  lemma PlaceIs(less: Comparison, pairs: seq<Pair>, target: Bytes, i: nat)
    requires Ascending(less, pairs) && i <= |pairs| && forall j :: 0 <= j < i ==> less(pairs[j].key, target)
    requires i < |pairs| ==> !less(pairs[i].key, target)
    ensures FirstPair(less, pairs, target) == i
  {
  }

  lemma Rebuilt(before: Bytes, key: Bytes, shared: nat)
    requires shared <= |before| && shared <= |key| && before[..shared] == key[..shared]
    ensures before[..shared] + key[shared..] == key
  {
  }

  /** Decoding at the offset of entry `i` gives the entry back. */
  lemma EntryParses(pairs: seq<Pair>, starts: seq<nat>, i: nat)
    requires StartsOk(starts, |pairs|) && SizesFit(pairs, starts) && i < |pairs|
    ensures var data := BlockImage(pairs, starts);
      var a, n := Offset(pairs, starts, i), Offset(pairs, starts, |pairs|);
      && a < n <= |data|
      && Parses(data, a, n, SharedLength(pairs, starts, i), pairs[i], Offset(pairs, starts, i + 1))
  {
    hide BlockImage, SharedLength, EntryImage, SizesFit, StartsOk, Offset, Parses;
    SizesAt(pairs, starts, i);
    EntryInBlock(pairs, starts, i);
    HeaderRoundTrip(BlockImage(pairs, starts), Offset(pairs, starts, i), Offset(pairs, starts, |pairs|),
                    SharedLength(pairs, starts, i), pairs[i]);
  }

  lemma SizesAt(pairs: seq<Pair>, starts: seq<nat>, i: nat)
    requires SizesFit(pairs, starts) && i < |pairs|
    ensures |pairs[i].key| < TWO_32 && |pairs[i].val| < TWO_32 && Offset(pairs, starts, |pairs|) < TWO_32
  {
  }

  lemma EntryInBlock(pairs: seq<Pair>, starts: seq<nat>, i: nat)
    requires StartsOk(starts, |pairs|) && SizesFit(pairs, starts) && i < |pairs|
    ensures var a, n := Offset(pairs, starts, i), Offset(pairs, starts, |pairs|);
      var image := EntryImage(SharedLength(pairs, starts, i), pairs[i]);
      && a < n <= |BlockImage(pairs, starts)|
      && image <= BlockImage(pairs, starts)[a..n]
      && a + |image| == Offset(pairs, starts, i + 1) <= n
  {
    hide Data, EntryImage, BlockImage, SizesFit, StartsOk, SharedLength;
    var d := Data(pairs, starts, |pairs|);
    DataAt(pairs, starts, i, |pairs|);
    BeginsWithData(pairs, starts);
    SliceBegins(d, BlockImage(pairs, starts), Offset(pairs, starts, i), Offset(pairs, starts, i + 1));
  }

  lemma BeginsWithData(pairs: seq<Pair>, starts: seq<nat>)
    requires StartsOk(starts, |pairs|) && SizesFit(pairs, starts)
    ensures Data(pairs, starts, |pairs|) <= BlockImage(pairs, starts)
  {
    hide Data, Trailer, RestartOffsets, StartsOk, SizesFit;
  }

  lemma SliceBegins(d: Bytes, image: Bytes, a: nat, b: nat)
    requires d <= image && a <= b <= |d|
    ensures d[a..b] <= image[a..|d|]
  {
    assert image[a..|d|] == d[a..];
    assert d[a..][..b - a] == d[a..b];
  }

  /** Offsets compare like indices. */
  lemma OffsetOrder(pairs: seq<Pair>, starts: seq<nat>, i: nat, j: nat)
    requires i <= |pairs| && j <= |pairs|
    ensures Offset(pairs, starts, i) < Offset(pairs, starts, j) <==> i < j
  {
    if i < j {
      OffsetsAscend(pairs, starts, i, j);
    } else if j < i {
      OffsetsAscend(pairs, starts, j, i);
    }
  }

  /** A block is its entries, the restart array and the number of restarts. */
  lemma ImageParts(pairs: seq<Pair>, starts: seq<nat>)
    requires StartsOk(starts, |pairs|) && SizesFit(pairs, starts)
    ensures BlockImage(pairs, starts) ==
            Data(pairs, starts, |pairs|) + RestartArray(RestartOffsets(pairs, starts, |starts|)) + EncodeFixed32(|starts|)
  {
    hide Data, RestartArray, RestartOffsets, EncodeFixed32, StartsOk;
    Grouped(Data(pairs, starts, |pairs|), RestartArray(RestartOffsets(pairs, starts, |starts|)), EncodeFixed32(|starts|));
  }

  lemma Grouped(a: Bytes, b: Bytes, c: Bytes)
    ensures a + (b + c) == a + b + c
  {
  }

  lemma WordAtEnd(x: Bytes, n: Word)
    ensures DecodeFixed32((x + EncodeFixed32(n))[|x|..]) == n
  {
    hide EncodeFixed32, DecodeFixed32;
    Fixed32RoundTrip(n, []);
    assert (x + EncodeFixed32(n))[|x|..] == EncodeFixed32(n) + [];
  }

  /** The number of restarts is the last word of the block. */
  lemma LastWord(pairs: seq<Pair>, starts: seq<nat>)
    requires StartsOk(starts, |pairs|) && SizesFit(pairs, starts)
    ensures var data := BlockImage(pairs, starts);
      && |data| == Offset(pairs, starts, |pairs|) + 4 * |starts| + 4
      && DecodeFixed32(data[|data| - 4..]) == |starts|
  {
    hide Data, RestartArray, RestartOffsets, BlockImage, StartsOk, EncodeFixed32, DecodeFixed32;
    var x := Data(pairs, starts, |pairs|) + RestartArray(RestartOffsets(pairs, starts, |starts|));
    ImageParts(pairs, starts);
    WordAtEnd(x, |starts|);
  }

  /** `Block::Block` and `Block::NewIterator` on a block that a builder finished. */
  method NewIterator(less: Comparison, data: Bytes, ghost pairs: seq<Pair>, ghost starts: seq<nat>) returns (it: Iter)
    requires StartsOk(starts, |pairs|) && SizesFit(pairs, starts) && Ascending(less, pairs) && WeakOrder(less)
    requires data == BlockImage(pairs, starts)
    ensures fresh(it) && it.AtEnd() && it.pairs == pairs && it.less == less
  {
    hide BlockImage, SizesFit, Offset;
    LastWord(pairs, starts);
    var numRestarts := DecodeFixed32(data[|data| - 4..]);
    var n: int := numRestarts;
    it := new Iter(less, pairs, starts, data, |data| - (1 + n) * 4, n);
  }

  /** A new iterator, one seek, and what it finds. */
  method SeekIn(less: Comparison, data: Bytes, target: Bytes, ghost pairs: seq<Pair>, ghost starts: seq<nat>)
    returns (r: Option<Pair>)
    requires StartsOk(starts, |pairs|) && SizesFit(pairs, starts) && Ascending(less, pairs) && WeakOrder(less)
    requires data == BlockImage(pairs, starts)
    ensures var p := FirstPair(less, pairs, target);
      r == if p < |pairs| then Some(pairs[p]) else None
  {
    hide StartsOk, SizesFit, Ascending, WeakOrder, BlockImage, FirstPair, Offset;
    var it := NewIterator(less, data, pairs, starts);
    it.Seek(target);
    ghost var p := FirstPair(less, pairs, target);
    r := None;
    if p < |pairs| {
      OffsetOrder(it.pairs, it.starts, p, |pairs|);
    }
    if it.Valid() {
      var v := it.Value();
      r := Some(Pair(it.key, v));
      assert v == pairs[p].val;
    }
  }
}
