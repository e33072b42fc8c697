/** Filter blocks: one filter for every 2KB of data (table/filter_block.cc, lines 14-104).

    The policy is any pair of functions without false negatives; module `Bloom` provides one. */
module FilterBlock {
  import opened DbFormat
  import opened Coding
  import opened Block
  import opened BlockIter

  const BASE_LG: Byte := 11
  const BASE := 2048

  type Create = seq<Bytes> -> Bytes
  type Match = (Bytes, Bytes) -> bool

  // ---------- the format ----------

  /** The filter of a group of keys: nothing for no keys. */
  function GroupFilter(create: Create, group: seq<Bytes>): Bytes {
    if group == [] then [] else create(group)
  }

  function Filters(create: Create, groups: seq<seq<Bytes>>): Bytes {
    if groups == [] then [] else Filters(create, groups[..|groups| - 1]) + GroupFilter(create, groups[|groups| - 1])
  }

  /** Where the filter of group `i` begins. */
  function FilterOffset(create: Create, groups: seq<seq<Bytes>>, i: nat): nat
    requires i <= |groups|
  {
    |Filters(create, groups[..i])|
  }

  lemma {:induction false} FilterAt(create: Create, groups: seq<seq<Bytes>>, i: nat, n: nat)
    requires i < n <= |groups|
    ensures FilterOffset(create, groups, i) <= FilterOffset(create, groups, i + 1) <= FilterOffset(create, groups, n)
    ensures Filters(create, groups[..n])[FilterOffset(create, groups, i)..FilterOffset(create, groups, i + 1)] ==
            GroupFilter(create, groups[i])
    decreases n
  {
    hide Filters, GroupFilter;
    var d, e := Filters(create, groups[..n - 1]), GroupFilter(create, groups[n - 1]);
    FiltersNext(create, groups, n - 1);
    if i < n - 1 {
      FilterAt(create, groups, i, n - 1);
      EarlierSlice(d, e, FilterOffset(create, groups, i), FilterOffset(create, groups, i + 1));
    } else {
      assert (d + e)[|d|..] == e;
    }
  }

  lemma FiltersNext(create: Create, groups: seq<seq<Bytes>>, n: nat)
    requires n < |groups|
    ensures Filters(create, groups[..n + 1]) == Filters(create, groups[..n]) + GroupFilter(create, groups[n])
  {
    assert groups[..n + 1][..n] == groups[..n];
  }

  function OffsetWords(create: Create, groups: seq<seq<Bytes>>, n: nat): (r: seq<Word>)
    requires n <= |groups| && |Filters(create, groups)| < TWO_32
    ensures |r| == n && forall i :: 0 <= i < n ==> r[i] == FilterOffset(create, groups, i)
  {
    if n == 0 then []
    else
      OffsetBounded(create, groups, n - 1);
      OffsetWords(create, groups, n - 1) + [FilterOffset(create, groups, n - 1)]
  }

  lemma OffsetBounded(create: Create, groups: seq<seq<Bytes>>, i: nat)
    requires i <= |groups|
    ensures FilterOffset(create, groups, i) <= |Filters(create, groups)|
  {
    assert groups[..|groups|] == groups;
    if i < |groups| {
      FilterAt(create, groups, i, |groups|);
    }
  }

  function Image(create: Create, groups: seq<seq<Bytes>>): Bytes
    requires |Filters(create, groups)| < TWO_32
  {
    Filters(create, groups) + RestartArray(OffsetWords(create, groups, |groups|)) +
    EncodeFixed32(|Filters(create, groups)|) + [BASE_LG]
  }

  // ---------- the builder ----------

  function Flat(keys: seq<Bytes>): Bytes {
    if keys == [] then [] else Flat(keys[..|keys| - 1]) + keys[|keys| - 1]
  }

  lemma {:induction false} FlatAt(keys: seq<Bytes>, i: nat, n: nat)
    requires i < n <= |keys|
    ensures |Flat(keys[..i])| + |keys[i]| == |Flat(keys[..i + 1])| <= |Flat(keys[..n])|
    ensures Flat(keys[..n])[|Flat(keys[..i])|..|Flat(keys[..i + 1])|] == keys[i]
    decreases n
  {
    assert keys[..n][..n - 1] == keys[..n - 1] && keys[..i + 1][..i] == keys[..i];
    if i < n - 1 {
      FlatAt(keys, i, n - 1);
    }
  }

  class FilterBlockBuilder {
    const create: Create
    /** The keys since the last filter, flattened, and where each begins. */
    var keys: Bytes
    var start: seq<nat>
    var result: Bytes
    var filterOffsets: seq<nat>
    /** The groups of keys that have a filter, and the keys since. */
    ghost var groups: seq<seq<Bytes>>
    ghost var current: seq<Bytes>

    ghost predicate Valid()
      reads this
    {
      && keys == Flat(current)
      && |start| == |current|
      && (forall i :: 0 <= i < |start| ==> start[i] == |Flat(current[..i])|)
      && result == Filters(create, groups)
      && |filterOffsets| == |groups|
      && (forall i :: 0 <= i < |groups| ==> filterOffsets[i] == FilterOffset(create, groups, i))
    }

    constructor (create: Create)
      ensures Valid() && groups == [] && current == [] && this.create == create
    {
      this.create := create;
      keys, start, result, filterOffsets := [], [], [], [];
      groups, current := [], [];
    }

    method AddKey(key: Bytes)
      requires Valid()
      modifies this
      ensures Valid() && groups == old(groups) && current == old(current) + [key]
    {
      hide Filters, FilterOffset;
      assert (current + [key])[..|current|] == current;
      forall i | 0 <= i < |current| ensures (current + [key])[..i] == current[..i] {
      }
      start := start + [|keys|];
      keys := keys + key;
      current := current + [key];
    }

    method GenerateFilter()
      requires Valid()
      modifies this
      ensures Valid() && groups == old(groups) + [old(current)] && current == []
    {
      ghost var more := groups + [current];
      GroupAdded(create, groups, current);
      if start == [] {
        filterOffsets := filterOffsets + [|result|];
      } else {
        var keyList := SplitKeys();
        filterOffsets := filterOffsets + [|result|];
        hide Filters, FilterOffset;
        result := result + create(keyList);
        keys, start := [], [];
      }
      groups, current := more, [];
    }

    /** Cuts the flattened keys apart again. */
    method SplitKeys() returns (r: seq<Bytes>)
      requires Valid()
      ensures r == current
    {
      hide Filters, FilterOffset;
      var bounds := start + [|keys|];
      r := [];
      assert current[..|current|] == current;
      for i := 0 to |start|
        invariant r == current[..i]
      {
        FlatAt(current, i, |current|);
        assert bounds[i + 1] == |Flat(current[..i + 1])|;
        r := r + [keys[bounds[i]..bounds[i + 1]]];
      }
    }

    /** A data block begins at this offset: the keys added from now on belong to the filter of its range. */
    method StartBlock(blockOffset: nat)
      requires Valid() && blockOffset / BASE >= |groups|
      modifies this
      ensures Valid() && |groups| == blockOffset / BASE
      ensures if |old(groups)| == blockOffset / BASE then groups == old(groups) && current == old(current)
              else old(groups) + [old(current)] <= groups && current == []
    {
      var filterIndex := blockOffset / BASE;
      while filterIndex > |filterOffsets|
        invariant Valid() && |old(groups)| <= |groups| <= filterIndex
        invariant if |old(groups)| == |groups| then groups == old(groups) && current == old(current)
                  else old(groups) + [old(current)] <= groups && current == []
        decreases filterIndex - |filterOffsets|
      {
        GenerateFilter();
      }
    }

    /** All groups, with the last one if it has keys. */
    ghost function AllGroups(): seq<seq<Bytes>>
      reads this
    {
      if current == [] then groups else groups + [current]
    }

    /** The filters, their offsets, the offset of the offsets and the base; offsets are cut to 32 bits, so the block is as
        it should be if they fit. */
    method Finish() returns (block: Bytes)
      requires Valid()
      modifies this
      ensures Valid() && groups == old(AllGroups())
      ensures block == result + RestartArray(CutWords(filterOffsets)) + EncodeFixed32(|result| % TWO_32) + [BASE_LG]
      ensures WellFormed(create, old(AllGroups()), block) || |Filters(create, old(AllGroups()))| >= TWO_32
    {
      if start != [] {
        GenerateFilter();
      }
      block := FinishImage();
    }

    method FinishImage() returns (block: Bytes)
      requires Valid()
      ensures block == result + RestartArray(CutWords(filterOffsets)) + EncodeFixed32(|result| % TWO_32) + [BASE_LG]
      ensures |Filters(create, groups)| < TWO_32 ==> block == Image(create, groups)
    {
      hide Filters, FilterOffset, RestartArray, EncodeFixed32, Flat;
      var offsets := filterOffsets;
      ghost var words := CutWords(offsets);
      block := result;
      NoRestarts();
      for i := 0 to |offsets|
        invariant block == result + RestartArray(words[..i])
      {
        NextRestart(words, i);
        block := block + EncodeFixed32(offsets[i] % TWO_32);
      }
      assert words[..|words|] == words;
      block := block + EncodeFixed32(|result| % TWO_32);
      block := block + [BASE_LG];
      if |Filters(create, groups)| < TWO_32 {
        OffsetsFit(create, groups, offsets);
      }
    }
  }

  lemma OffsetsFit(create: Create, groups: seq<seq<Bytes>>, offsets: seq<nat>)
    requires |Filters(create, groups)| < TWO_32 && |offsets| == |groups|
    requires forall i :: 0 <= i < |groups| ==> offsets[i] == FilterOffset(create, groups, i)
    ensures CutWords(offsets) == OffsetWords(create, groups, |groups|)
  {
    hide Filters, FilterOffset, OffsetWords;
    var words := OffsetWords(create, groups, |groups|);
    forall i | 0 <= i < |groups| ensures CutWords(offsets)[i] == words[i] {
      assert words[i] == FilterOffset(create, groups, i);
    }
  }

  lemma GroupAdded(create: Create, groups: seq<seq<Bytes>>, group: seq<Bytes>)
    ensures var more := groups + [group];
      && Filters(create, more) == Filters(create, groups) + GroupFilter(create, group)
      && (forall i :: 0 <= i <= |groups| ==> FilterOffset(create, more, i) == FilterOffset(create, groups, i))
      && FilterOffset(create, more, |groups|) == |Filters(create, groups)|
  {
    var more := groups + [group];
    assert more[..|groups|] == groups && groups[..|groups|] == groups;
    forall i | 0 <= i <= |groups| ensures more[..i] == groups[..i] {
    }
  }

  // ---------- the reader ----------

  /** The word at position `p`. */
  function WordOf(contents: Bytes, p: nat): Word
    requires p + 4 <= |contents|
  {
    DecodeFixed32(contents[p..])
  }

  /** The filter of range `index`, if the words say where it is.  Anything unexpected counts as a match. */
  method TestFilter(matches: Match, contents: Bytes, word: nat, index: nat, key: Bytes) returns (r: bool)
    requires word + index * 4 + 8 <= |contents|
    ensures var start, limit := WordOf(contents, word + index * 4), WordOf(contents, word + index * 4 + 4);
      start <= limit <= word ==> r == matches(key, contents[start..limit])
  {
    var start := WordOf(contents, word + index * 4);
    var limit := WordOf(contents, word + index * 4 + 4);
    if start <= limit && limit <= word {
      r := matches(key, contents[start..limit]);
    } else if start == limit {
      r := false;
    } else {
      r := true;
    }
  }

  /** Looks into the filter for the block at `blockOffset`: the answer is that filter's. */
  method KeyMayMatch(matches: Match, contents: Bytes, blockOffset: nat, key: Bytes, ghost create: Create,
                     ghost groups: seq<seq<Bytes>>)
    returns (r: bool)
    ensures WellFormed(create, groups, contents) ==> r == Covers(create, matches, groups, blockOffset, key)
  {
    hide Image, Filters, WordOf, WellFormed, Power, GroupFilter;
    var n := |contents|;
    if WellFormed(create, groups, contents) {
      ImageShape(create, groups, contents);
    }
    if n < 5 {
      return true;
    }
    var word: nat := WordOf(contents, n - 5);
    if word > n - 5 {
      return true;
    }
    var num := (n - 5 - word) / 4;
    var index := blockOffset / Power(contents[n - 1]);
    if WellFormed(create, groups, contents) {
      RangeFound(create, groups, contents, word, blockOffset);
    }
    r := true;
    if index < num {
      r := TestFilter(matches, contents, word, index, key);
    }
  }

  /** `1 << n`. */
  function Power(n: nat): (r: nat)
    ensures r > 0
  {
    if n == 0 then 1 else 2 * Power(n - 1)
  }

  ghost predicate WellFormed(create: Create, groups: seq<seq<Bytes>>, contents: Bytes) {
    |Filters(create, groups)| < TWO_32 && contents == Image(create, groups)
  }

  /** The filter for this offset's range lets the key pass. */
  predicate Covers(create: Create, matches: Match, groups: seq<seq<Bytes>>, blockOffset: nat, key: Bytes) {
    blockOffset / BASE < |groups| ==> matches(key, GroupFilter(create, groups[blockOffset / BASE]))
  }

  lemma BaseIsPower()
    ensures Power(BASE_LG) == BASE
  {
    assert Power(4) == 16 && Power(8) == 256 by {
      assert Power(2) == 4;
      assert Power(6) == 64;
    }
    assert Power(10) == 1024;
  }

  /** The words at the end of the block: the offsets of the filters, and where the offsets begin. */
  function AllWords(create: Create, groups: seq<seq<Bytes>>): (r: seq<Word>)
    requires |Filters(create, groups)| < TWO_32
    ensures |r| == |groups| + 1 && forall i :: 0 <= i <= |groups| ==> r[i] == FilterOffset(create, groups, i)
  {
    assert groups[..|groups|] == groups;
    OffsetWords(create, groups, |groups|) + [|Filters(create, groups)|]
  }

  lemma ImageWords(create: Create, groups: seq<seq<Bytes>>)
    requires |Filters(create, groups)| < TWO_32
    ensures Image(create, groups) ==
            Filters(create, groups) + (RestartArray(AllWords(create, groups)) + [BASE_LG])
  {
    hide Filters, EncodeFixed32, RestartArray, FilterOffset, OffsetWords;
    RestartAppended(OffsetWords(create, groups, |groups|), |Filters(create, groups)|);
  }

  lemma WordAt(f: Bytes, words: seq<Word>, last: Byte, i: nat)
    requires i < |words|
    ensures var c := f + (RestartArray(words) + [last]);
      |f| + i * 4 + 4 <= |c| && WordOf(c, |f| + i * 4) == words[i]
  {
    var a := RestartArray(words);
    var c := f + (a + [last]);
    RestartWord(words, i);
    hide RestartArray, EncodeFixed32, DecodeFixed32;
    var tail := c[|f| + i * 4..];
    assert tail[..4] == a[4 * i..4 * i + 4];
    assert tail == EncodeFixed32(words[i]) + tail[4..];
    Fixed32RoundTrip(words[i], tail[4..]);
  }

  /** How many filters there are, and where their offsets begin. */
  lemma ImageShape(create: Create, groups: seq<seq<Bytes>>, contents: Bytes)
    requires WellFormed(create, groups, contents)
    ensures var n := |contents|;
      && n >= 5 && Power(contents[n - 1]) == BASE
      && n == |Filters(create, groups)| + 4 * |groups| + 5
      && WordOf(contents, n - 5) == |Filters(create, groups)|
  {
    hide Filters, RestartArray, WordOf, EncodeFixed32, Image, AllWords, FilterOffset;
    var f, words := Filters(create, groups), AllWords(create, groups);
    ImageWords(create, groups);
    BaseIsPower();
    WordAt(f, words, BASE_LG, |groups|);
    assert |contents| - 5 == |f| + |groups| * 4;
    assert groups[..|groups|] == groups;
    assert words[|groups|] == FilterOffset(create, groups, |groups|);
    WholeOffset(create, groups);
  }

  lemma WholeOffset(create: Create, groups: seq<seq<Bytes>>)
    ensures FilterOffset(create, groups, |groups|) == |Filters(create, groups)|
  {
    assert groups[..|groups|] == groups;
  }

  /** What the reader computes: the word before the last byte, the number of filters and the filter of the range. */
  lemma RangeFound(create: Create, groups: seq<seq<Bytes>>, contents: Bytes, word: nat, blockOffset: nat)
    requires WellFormed(create, groups, contents) && |contents| >= 5 && word == WordOf(contents, |contents| - 5)
    requires word <= |contents| - 5
    ensures (|contents| - 5 - word) / 4 == |groups| && Power(contents[|contents| - 1]) == BASE
    ensures
      var index := blockOffset / BASE;
      index < |groups| ==>
        && word + index * 4 + 8 <= |contents|
        && var start, limit := WordOf(contents, word + index * 4), WordOf(contents, word + index * 4 + 4);
           start <= limit <= word && contents[start..limit] == GroupFilter(create, groups[index])
  {
    hide Image, Filters, WordOf, WellFormed, Power, GroupFilter;
    ImageShape(create, groups, contents);
    if blockOffset / BASE < |groups| {
      FilterFound(create, groups, contents, blockOffset / BASE);
    }
  }

  /** The reader finds the filter of range `i`. */
  lemma FilterFound(create: Create, groups: seq<seq<Bytes>>, contents: Bytes, i: nat)
    requires WellFormed(create, groups, contents) && i < |groups|
    ensures var word := |Filters(create, groups)|;
      && word + i * 4 + 8 <= |contents|
      && var start, limit := WordOf(contents, word + i * 4), WordOf(contents, word + i * 4 + 4);
         start <= limit <= word && contents[start..limit] == GroupFilter(create, groups[i])
  {
    hide Filters, RestartArray, WordOf, EncodeFixed32, GroupFilter, Image, AllWords, FilterOffset;
    var f, words := Filters(create, groups), AllWords(create, groups);
    ImageWords(create, groups);
    FilterBounds(create, groups, i);
    WordAt(f, words, BASE_LG, i);
    WordAt(f, words, BASE_LG, i + 1);
    assert |f| + i * 4 + 4 == |f| + (i + 1) * 4;
    SlicePrefix(f, contents, words[i], words[i + 1]);
  }

  lemma FilterBounds(create: Create, groups: seq<seq<Bytes>>, i: nat)
    requires i < |groups|
    ensures var f := Filters(create, groups);
      var a, b := FilterOffset(create, groups, i), FilterOffset(create, groups, i + 1);
      a <= b <= |f| == FilterOffset(create, groups, |groups|) && f[a..b] == GroupFilter(create, groups[i])
  {
    assert groups[..|groups|] == groups;
    FilterAt(create, groups, i, |groups|);
  }

  lemma SlicePrefix(f: Bytes, c: Bytes, a: nat, b: nat)
    requires f <= c && a <= b <= |f|
    ensures c[a..b] == f[a..b]
  {
    assert c[..|f|] == f;
  }
}
