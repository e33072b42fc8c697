/** Blocks: prefix-compressed sorted pairs with restart points (table/block_builder.cc, lines 40-106;
    table/block.cc, lines 20-264).

    Keys are byte strings in the order of some comparator.  Every choice of restart points is allowed; the builder starts a
    new one every `interval` entries.  Iterators are over blocks that the builder made; corrupted blocks are
    not part of this model. */
module Block {
  import opened DbFormat
  import opened Coding
  import opened Comparator

  datatype Pair = Pair(key: Bytes, val: Bytes)

  predicate Ascending(less: Comparison, pairs: seq<Pair>) {
    forall i, j :: 0 <= i < j < |pairs| ==> less(pairs[i].key, pairs[j].key)
  }

  // ---------- the format ----------

  function CommonPrefix(a: Bytes, b: Bytes): (r: nat)
    ensures r <= |a| && r <= |b| && a[..r] == b[..r]
    ensures r < |a| && r < |b| ==> a[r] != b[r]
  {
    if a == [] || b == [] || a[0] != b[0] then 0
    else
      var n := CommonPrefix(a[1..], b[1..]);
      assert a[..n + 1] == [a[0]] + a[1..][..n] && b[..n + 1] == [b[0]] + b[1..][..n];
      n + 1
  }

  /** Restart points: indices of entries, beginning with 0. */
  predicate StartsOk(starts: seq<nat>, n: nat) {
    && starts != [] && starts[0] == 0
    && (forall i, j :: 0 <= i < j < |starts| ==> starts[i] < starts[j])
    && (forall i :: 0 < i < |starts| ==> starts[i] < n)
  }

  function SharedLength(pairs: seq<Pair>, starts: seq<nat>, i: nat): (r: nat)
    requires i < |pairs|
    ensures r <= |pairs[i].key| && (i in starts || i == 0 ==> r == 0)
    ensures i > 0 ==> r <= |pairs[i - 1].key| && pairs[i - 1].key[..r] == pairs[i].key[..r]
  {
    if i in starts || i == 0 then 0 else CommonPrefix(pairs[i - 1].key, pairs[i].key)
  }

  function EntryHeader(shared: nat, p: Pair): Bytes
    requires shared <= |p.key|
  {
    Varint(shared) + Varint(|p.key| - shared) + Varint(|p.val|)
  }

  function EntryImage(shared: nat, p: Pair): (r: Bytes)
    requires shared <= |p.key|
    ensures |r| >= 3
  {
    EntryHeader(shared, p) + p.key[shared..] + p.val
  }

  function Data(pairs: seq<Pair>, starts: seq<nat>, n: nat): Bytes
    requires n <= |pairs|
  {
    if n == 0 then [] else Data(pairs, starts, n - 1) + EntryImage(SharedLength(pairs, starts, n - 1), pairs[n - 1])
  }

  function Offset(pairs: seq<Pair>, starts: seq<nat>, n: nat): nat
    requires n <= |pairs|
  {
    |Data(pairs, starts, n)|
  }

  lemma {:induction false} OffsetsAscend(pairs: seq<Pair>, starts: seq<nat>, i: nat, j: nat)
    requires i < j <= |pairs|
    ensures Offset(pairs, starts, i) + 3 <= Offset(pairs, starts, j)
    decreases j
  {
    if i < j - 1 {
      OffsetsAscend(pairs, starts, i, j - 1);
    }
  }

  /** Where the entries are in the data. */
  lemma {:induction false} DataAt(pairs: seq<Pair>, starts: seq<nat>, i: nat, n: nat)
    requires i < n <= |pairs|
    ensures Offset(pairs, starts, i) < Offset(pairs, starts, i + 1) <= Offset(pairs, starts, n)
    ensures Data(pairs, starts, n)[Offset(pairs, starts, i)..Offset(pairs, starts, i + 1)] ==
            EntryImage(SharedLength(pairs, starts, i), pairs[i])
    decreases n
  {
    hide EntryImage, SharedLength, Data;
    var d, e := Data(pairs, starts, n - 1), EntryImage(SharedLength(pairs, starts, n - 1), pairs[n - 1]);
    DataNext(pairs, starts, n - 1);
    if i < n - 1 {
      DataAt(pairs, starts, i, n - 1);
      EarlierSlice(d, e, Offset(pairs, starts, i), Offset(pairs, starts, i + 1));
    } else {
      assert (d + e)[|d|..] == e;
    }
  }

  lemma DataNext(pairs: seq<Pair>, starts: seq<nat>, n: nat)
    requires n < |pairs|
    ensures Data(pairs, starts, n + 1) == Data(pairs, starts, n) + EntryImage(SharedLength(pairs, starts, n), pairs[n])
  {
  }

  lemma EarlierSlice(d: Bytes, e: Bytes, a: nat, b: nat)
    requires a <= b <= |d|
    ensures (d + e)[a..b] == d[a..b]
  {
  }

  /** The restart array: offsets of the restart points. */
  function RestartArray(restarts: seq<Word>): (r: Bytes)
    ensures |r| == 4 * |restarts|
  {
    if restarts == [] then [] else RestartArray(restarts[..|restarts| - 1]) + EncodeFixed32(restarts[|restarts| - 1])
  }

  /** Numbers as 32-bit words. */
  function CutWords(ns: seq<nat>): (r: seq<Word>)
    ensures |r| == |ns| && forall i :: 0 <= i < |ns| ==> r[i] == ns[i] % TWO_32
  {
    seq(|ns|, i requires 0 <= i < |ns| => ns[i] % TWO_32)
  }

  function Trailer(restarts: seq<Word>): (r: Bytes)
    requires |restarts| < TWO_32
    ensures |r| == 4 * |restarts| + 4
  {
    RestartArray(restarts) + EncodeFixed32(|restarts|)
  }

  /** Sizes and offsets fit into 32 bits. */
  predicate SizesFit(pairs: seq<Pair>, starts: seq<nat>) {
    && |starts| < TWO_32
    && Offset(pairs, starts, |pairs|) < TWO_32
    && forall i :: 0 <= i < |pairs| ==> |pairs[i].key| < TWO_32 && |pairs[i].val| < TWO_32
  }

  function RestartOffsets(pairs: seq<Pair>, starts: seq<nat>, n: nat): (r: seq<Word>)
    requires n <= |starts| && StartsOk(starts, |pairs|) && Offset(pairs, starts, |pairs|) < TWO_32
    ensures |r| == n && forall i :: 0 <= i < n ==> starts[i] <= |pairs| && r[i] == Offset(pairs, starts, starts[i])
  {
    if n == 0 then []
    else
      assert starts[n - 1] <= |pairs|;
      OffsetMonotone(pairs, starts, starts[n - 1]);
      RestartOffsets(pairs, starts, n - 1) + [Offset(pairs, starts, starts[n - 1])]
  }

  lemma OffsetMonotone(pairs: seq<Pair>, starts: seq<nat>, i: nat)
    requires i <= |pairs|
    ensures Offset(pairs, starts, i) <= Offset(pairs, starts, |pairs|)
  {
    if i < |pairs| {
      OffsetsAscend(pairs, starts, i, |pairs|);
    }
  }

  function BlockImage(pairs: seq<Pair>, starts: seq<nat>): Bytes
    requires StartsOk(starts, |pairs|) && SizesFit(pairs, starts)
  {
    Data(pairs, starts, |pairs|) + Trailer(RestartOffsets(pairs, starts, |starts|))
  }

  lemma NoRestarts()
    ensures RestartArray([]) == []
  {
  }

  lemma RestartAppended(words: seq<Word>, w: Word)
    ensures RestartArray(words + [w]) == RestartArray(words) + EncodeFixed32(w)
  {
    assert (words + [w])[..|words|] == words;
  }

  lemma NextRestart(words: seq<Word>, i: nat)
    requires i < |words|
    ensures RestartArray(words[..i + 1]) == RestartArray(words[..i]) + EncodeFixed32(words[i])
  {
    assert words[..i + 1][..i] == words[..i];
  }

  // ---------- the builder ----------

  /** Entries before the last one do not depend on the last one, nor on a restart point there. */
  lemma SharedSame(pairs: seq<Pair>, starts: seq<nat>, p: Pair, more: seq<nat>, i: nat)
    requires i < |pairs|
    requires more == starts || more == starts + [|pairs|]
    ensures SharedLength(pairs + [p], more, i) == SharedLength(pairs, starts, i)
  {
    hide CommonPrefix;
    assert i in more <==> i in starts;
  }

  lemma {:induction false} DataSame(pairs: seq<Pair>, starts: seq<nat>, p: Pair, more: seq<nat>, n: nat)
    requires n <= |pairs|
    requires more == starts || more == starts + [|pairs|]
    ensures Data(pairs + [p], more, n) == Data(pairs, starts, n)
  {
    hide EntryImage, SharedLength;
    if n > 0 {
      DataSame(pairs, starts, p, more, n - 1);
      SharedSame(pairs, starts, p, more, n - 1);
    }
  }

  /** The restart array so far. */
  ghost predicate RestartsAre(pairs: seq<Pair>, starts: seq<nat>, restarts: seq<nat>) {
    && |restarts| == |starts|
    && forall i :: 0 <= i < |starts| ==> starts[i] <= |pairs| && restarts[i] == Offset(pairs, starts, starts[i])
  }

  lemma EntryAdded(pairs: seq<Pair>, starts: seq<nat>, p: Pair, more: seq<nat>, restarts: seq<nat>)
    requires StartsOk(starts, |pairs|) && RestartsAre(pairs, starts, restarts)
    requires more == starts || (more == starts + [|pairs|] && |pairs| > 0)
    ensures var after := pairs + [p];
      && StartsOk(more, |after|)
      && Data(after, more, |after|) == Data(pairs, starts, |pairs|) + EntryImage(SharedLength(after, more, |pairs|), p)
      && RestartsAre(after, more, if more == starts then restarts else restarts + [Offset(pairs, starts, |pairs|)])
  {
    hide EntryImage, SharedLength;
    DataSame(pairs, starts, p, more, |pairs|);
    forall i | 0 <= i < |starts|
      ensures Offset(pairs + [p], more, starts[i]) == Offset(pairs, starts, starts[i])
    {
      DataSame(pairs, starts, p, more, starts[i]);
    }
    assert Data(pairs + [p], more, |pairs| + 1) ==
      Data(pairs + [p], more, |pairs|) + EntryImage(SharedLength(pairs + [p], more, |pairs|), p);
    hide Data;
  }

  /** The last restart point is as many entries back as the counter says. */
  predicate Counts(starts: seq<nat>, interval: nat, n: nat, counter: nat) {
    starts != [] && Regular(starts, interval) && n == starts[|starts| - 1] + counter && counter <= interval
  }

  lemma NoData()
    ensures Data([], [0], 0) == []
  {
  }

  lemma {:induction false} DataEmpty(pairs: seq<Pair>, starts: seq<nat>, n: nat)
    requires n <= |pairs|
    ensures |Data(pairs, starts, n)| >= 3 * n
  {
    hide EntryImage, SharedLength;
    if n > 0 {
      DataEmpty(pairs, starts, n - 1);
    }
  }

  lemma CountsNext(starts: seq<nat>, interval: nat, n: nat, counter: nat)
    requires Counts(starts, interval, n, counter) && interval >= 1
    ensures counter <= interval && (counter == interval ==> n > 0)
    ensures if counter < interval then Counts(starts, interval, n + 1, counter + 1)
            else Counts(starts + [n], interval, n + 1, 1)
  {
  }

  lemma SharedIs(pairs: seq<Pair>, starts: seq<nat>, p: Pair, more: seq<nat>)
    requires StartsOk(starts, |pairs|)
    requires more == starts || (more == starts + [|pairs|] && |pairs| > 0)
    ensures SharedLength(pairs + [p], more, |pairs|) ==
      if more == starts && |pairs| > 0 then CommonPrefix(pairs[|pairs| - 1].key, p.key) else 0
  {
    if more != starts {
      assert more[|starts|] == |pairs|;
    }
  }

  /** The size of the block image. */
  function SizeOf(pairs: seq<Pair>, starts: seq<nat>): nat {
    Offset(pairs, starts, |pairs|) + 4 * |starts| + 4
  }

  /** The restart points without the last entry. */
  function StartsBefore(starts: seq<nat>, n: nat): seq<nat> {
    if starts != [] && starts[|starts| - 1] == n - 1 > 0 then starts[..|starts| - 1] else starts
  }

  lemma StartsWere(starts: seq<nat>, n: nat, more: seq<nat>)
    requires StartsOk(starts, n) && (more == starts || (more == starts + [n] && n > 0))
    ensures StartsBefore(more, n + 1) == starts
  {
    assert (starts + [n])[..|starts|] == starts;
  }

  /** Restart points come every `interval` entries. */
  predicate Regular(starts: seq<nat>, interval: nat) {
    forall i :: 0 <= i < |starts| - 1 ==> starts[i + 1] == starts[i] + interval
  }

  class BlockBuilder {
    const interval: nat
    var buffer: Bytes
    var restarts: seq<nat>
    var counter: nat
    var lastKey: Bytes
    ghost var pairs: seq<Pair>
    ghost var starts: seq<nat>

    ghost predicate Valid()
      reads this
    {
      && interval >= 1
      && StartsOk(starts, |pairs|)
      && Counts(starts, interval, |pairs|, counter)
      && buffer == Data(pairs, starts, |pairs|)
      && RestartsAre(pairs, starts, restarts)
      && lastKey == if pairs == [] then [] else pairs[|pairs| - 1].key
    }

    constructor (interval: nat)
      requires interval >= 1
      ensures Valid() && pairs == [] && buffer == [] && this.interval == interval
    {
      this.interval := interval;
      buffer, restarts, counter, lastKey := [], [0], 0, [];
      pairs, starts := [], [0];
    }

    method Add(key: Bytes, value: Bytes)
      requires Valid() && |key| < TWO_32 && |value| < TWO_32
      modifies this
      ensures Valid() && pairs == old(pairs) + [Pair(key, value)]
      ensures |buffer| <= |old(buffer)| + 15 + |key| + |value|
      ensures StartsBefore(starts, |pairs|) == old(starts)
    {
      hide Data, EntryImage, CommonPrefix, SharedLength, StartsOk, RestartsAre, Counts, StartsBefore;
      CountsNext(starts, interval, |pairs|, counter);
      ghost var p := Pair(key, value);
      ghost var more := if counter < interval then starts else starts + [|pairs|];
      EntryAdded(pairs, starts, p, more, restarts);
      StartsWere(starts, |pairs|, more);
      var shared := 0;
      if counter < interval {
        shared := CountShared(lastKey, key);
      } else {
        restarts := restarts + [|buffer|];
        counter := 0;
      }
      SharedIs(pairs, starts, p, more);
      AppendEntry(shared, key, value);
      lastKey := lastKey[..shared] + key[shared..];
      assert lastKey == key;
      counter := counter + 1;
      pairs, starts := pairs + [p], more;
    }

    method AppendEntry(shared: nat, key: Bytes, value: Bytes)
      requires shared <= |key| < TWO_32 && |value| < TWO_32
      modifies this`buffer
      ensures buffer == old(buffer) + EntryImage(shared, Pair(key, value))
      ensures |buffer| <= |old(buffer)| + 15 + |key| + |value|
    {
      Powers();
      VarintLength(shared, 5);
      VarintLength(|key| - shared, 5);
      VarintLength(|value|, 5);
      var nonShared := |key| - shared;
      var a := EncodeVarint32(shared);
      var b := EncodeVarint32(nonShared);
      var c := EncodeVarint32(|value|);
      buffer := buffer + (a + b + c);
      buffer := buffer + key[shared..];
      buffer := buffer + value;
    }

    method Reset()
      requires Valid()
      modifies this
      ensures Valid() && pairs == [] && buffer == []
    {
      hide Data;
      NoData();
      buffer, restarts, counter, lastKey := [], [0], 0, [];
      pairs, starts := [], [0];
    }

    predicate Empty()
      reads this
      requires Valid()
      ensures Empty() <==> pairs == []
    {
      DataEmpty(pairs, starts, |pairs|);
      buffer == []
    }

    /** What the block would take on file, without its trailer. */
    function CurrentSizeEstimate(): (r: nat)
      reads this
      requires Valid()
      ensures r == SizeOf(pairs, starts) && |buffer| <= r
    {
      |buffer| + 4 * |restarts| + 4
    }

    /** The data, the restart array and its length; numbers are cut to 32 bits, so the block is as it should be if they
        fit. */
    method Finish() returns (block: Bytes)
      requires Valid()
      ensures block == buffer + RestartArray(CutWords(restarts)) + EncodeFixed32(|restarts| % TWO_32)
      ensures SizesFit(pairs, starts) ==> block == BlockImage(pairs, starts)
    {
      hide Data, StartsOk, RestartsAre, RestartArray, EncodeFixed32, Counts, SizesFit, RestartOffsets;
      ghost var words := CutWords(restarts);
      block := buffer;
      NoRestarts();
      for i := 0 to |restarts|
        invariant block == buffer + RestartArray(words[..i])
      {
        NextRestart(words, i);
        block := block + EncodeFixed32(restarts[i] % TWO_32);
      }
      assert words[..|words|] == words;
      block := block + EncodeFixed32(|restarts| % TWO_32);
      if SizesFit(pairs, starts) {
        WordsAre(pairs, starts, restarts);
        assert words == RestartOffsets(pairs, starts, |starts|);
      }
    }
  }

  lemma WordsAre(pairs: seq<Pair>, starts: seq<nat>, restarts: seq<nat>)
    requires StartsOk(starts, |pairs|) && SizesFit(pairs, starts) && RestartsAre(pairs, starts, restarts)
    ensures Offset(pairs, starts, |pairs|) < TWO_32 && |restarts| == |starts| < TWO_32
    ensures var words := RestartOffsets(pairs, starts, |starts|);
      forall i :: 0 <= i < |restarts| ==> restarts[i] < TWO_32 && restarts[i] == words[i]
  {
    hide Data, StartsOk, RestartOffsets;
    var words := RestartOffsets(pairs, starts, |starts|);
    forall i | 0 <= i < |restarts| ensures restarts[i] < TWO_32 && restarts[i] == words[i] {
      assert words[i] == Offset(pairs, starts, starts[i]);
    }
  }

  method CountShared(a: Bytes, b: Bytes) returns (shared: nat)
    ensures shared == CommonPrefix(a, b)
  {
    var minLength := if |a| < |b| then |a| else |b|;
    shared := 0;
    while shared < minLength && a[shared] == b[shared]
      invariant shared <= minLength && shared + CommonPrefix(a[shared..], b[shared..]) == CommonPrefix(a, b)
    {
      assert a[shared..][1..] == a[shared + 1..] && b[shared..][1..] == b[shared + 1..];
      shared := shared + 1;
    }
  }

  // ---------- decoding ----------

  /** The three lengths before an entry, and where its key bytes begin. */
  datatype Lengths = Lengths(shared: nat, nonShared: nat, valueLength: nat, keyStart: nat)

  function VarintAt(data: Bytes, p: nat, limit: nat): (r: Option<(nat, nat)>)
    requires p <= limit <= |data|
    ensures r.Some? ==> p < r.value.1 <= limit
  {
    match ReadVarint(data[p..limit], 5)
    case None => None
    case Some((v, n)) => Some((v % TWO_32, p + n))
  }

  /** What the header of an entry at `p` says. */
  function HeaderAt(data: Bytes, p: nat, limit: nat): Option<Lengths>
    requires p <= limit <= |data|
  {
    if limit - p < 3 then None
    else
      var a := VarintAt(data, p, limit);
      if a.None? then None
      else
        var b := VarintAt(data, a.value.1, limit);
        if b.None? then None
        else
          var c := VarintAt(data, b.value.1, limit);
          if c.None? || limit - c.value.1 < (b.value.0 + c.value.0) % TWO_32 then None
          else Some(Lengths(a.value.0, b.value.0, c.value.0, c.value.1))
  }

  lemma OneByte(data: Bytes, p: nat, limit: nat)
    requires p < limit <= |data| && data[p] < 128
    ensures VarintAt(data, p, limit) == Some((data[p], p + 1))
  {
    assert data[p..limit][0] == data[p];
  }

  /** Decodes the header of the entry at `p`.  Three one-byte lengths are the fast path. */
  method DecodeEntry(data: Bytes, p: nat, limit: nat) returns (r: Option<Lengths>)
    requires p <= limit <= |data|
    ensures r == HeaderAt(data, p, limit)
  {
    hide VarintAt;
    if limit - p < 3 {
      return None;
    }
    var shared: nat, nonShared: nat, valueLength: nat := data[p], data[p + 1], data[p + 2];
    var q := p + 3;
    if shared < 128 && nonShared < 128 && valueLength < 128 {
      OneByte(data, p, limit);
      OneByte(data, p + 1, limit);
      OneByte(data, p + 2, limit);
    } else {
      var a := GetVarint32(data, p, limit);
      if a.None? {
        return None;
      }
      var c := GetVarint32(data, a.value.1, limit);
      if c.None? {
        return None;
      }
      var d := GetVarint32(data, c.value.1, limit);
      if d.None? {
        return None;
      }
      shared, nonShared, valueLength, q := a.value.0, c.value.0, d.value.0, d.value.1;
    }
    if limit - q < (nonShared + valueLength) % TWO_32 {
      return None;
    }
    r := Some(Lengths(shared, nonShared, valueLength, q));
  }

  method GetVarint32(data: Bytes, p: nat, limit: nat) returns (r: Option<(nat, nat)>)
    requires p <= limit <= |data|
    ensures r == VarintAt(data, p, limit)
  {
    r := GetVarint(data, p, limit, 5, TWO_32);
  }

  /** A varint that was put at `p` is read back. */
  lemma VarintAtRoundTrip(data: Bytes, p: nat, limit: nat, v: nat)
    requires p <= limit <= |data| && v < TWO_32 && Varint(v) <= data[p..limit]
    ensures VarintAt(data, p, limit) == Some((v, p + |Varint(v)|))
  {
    Powers();
    var b := data[p..limit];
    VarintRoundTrip(v, b[|Varint(v)|..], 5);
    assert b == Varint(v) + b[|Varint(v)|..];
  }

  /** Decoding at `p` finds the pair, `shared` bytes of its key left out, and the next entry at `next`. */
  ghost predicate Parses(data: Bytes, p: nat, limit: nat, shared: nat, e: Pair, next: nat)
    requires p <= limit <= |data|
  {
    && shared <= |e.key|
    && match HeaderAt(data, p, limit)
       case None => false
       case Some(h) =>
         var k := h.keyStart + h.nonShared;
         && h.shared == shared && h.nonShared == |e.key| - shared && h.valueLength == |e.val|
         && k + |e.val| == next <= limit
         && data[h.keyStart..k] == e.key[shared..]
         && data[k..next] == e.val
  }

  /** An entry that was put at `p` is read back. */
  lemma HeaderRoundTrip(data: Bytes, p: nat, limit: nat, shared: nat, e: Pair)
    requires p <= limit <= |data| && shared <= |e.key| && |e.key| < TWO_32 && |e.val| < TWO_32
    requires EntryImage(shared, e) <= data[p..limit]
    requires limit < TWO_32
    ensures Parses(data, p, limit, shared, e, p + |EntryImage(shared, e)|)
  {
    hide VarintAt, HeaderAt, Varint, EntryImage;
    var x, y, z, n := Varint(shared), Varint(|e.key| - shared), Varint(|e.val|), |e.key| - shared;
    var k, v := e.key[shared..], e.val;
    var a, b, c := p + |x|, p + |x| + |y|, p + |x| + |y| + |z|;
    ImageParts(shared, e);
    Peel(data, p, limit, x, y + (z + (k + v)));
    VarintAtRoundTrip(data, p, limit, shared);
    Peel(data, a, limit, y, z + (k + v));
    VarintAtRoundTrip(data, a, limit, n);
    Peel(data, b, limit, z, k + v);
    VarintAtRoundTrip(data, b, limit, |v|);
    Peel(data, c, limit, k, v);
    PrefixSlice(data, c, limit, k);
    PrefixSlice(data, c + n, limit, v);
    HeaderIs(data, p, limit, (shared, a), (n, b), (|v|, c));
  }

  lemma ImageParts(shared: nat, e: Pair)
    requires shared <= |e.key|
    ensures EntryImage(shared, e) ==
            Varint(shared) + (Varint(|e.key| - shared) + (Varint(|e.val|) + (e.key[shared..] + e.val)))
  {
    hide Varint;
  }

  lemma PrefixSlice(data: Bytes, p: nat, limit: nat, x: Bytes)
    requires p <= limit <= |data| && x <= data[p..limit]
    ensures data[p..p + |x|] == x
  {
    assert data[p..limit][..|x|] == data[p..p + |x|];
  }

  lemma Peel(data: Bytes, p: nat, limit: nat, x: Bytes, rest: Bytes)
    requires p <= limit <= |data| && x + rest <= data[p..limit]
    ensures p + |x| + |rest| <= limit && x <= data[p..limit] && rest <= data[p + |x|..limit]
  {
    var d := data[p..limit];
    assert (x + rest)[..|x|] == x && (x + rest)[|x|..] == rest;
    assert d[|x|..] == data[p + |x|..limit];
    assert d[..|x + rest|] == x + rest;
  }

  lemma HeaderIs(data: Bytes, p: nat, limit: nat, a: (nat, nat), b: (nat, nat), c: (nat, nat))
    requires p + 3 <= limit <= |data| && limit < TWO_32
    requires VarintAt(data, p, limit) == Some(a) && VarintAt(data, a.1, limit) == Some(b)
    requires VarintAt(data, b.1, limit) == Some(c) && c.1 + b.0 + c.0 <= limit
    ensures HeaderAt(data, p, limit) == Some(Lengths(a.0, b.0, c.0, c.1))
  {
  }
}
