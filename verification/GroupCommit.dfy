/** The queue of writers (db/db_impl.cc, lines 1185-1306): the writer at the front writes a group on behalf of those
    behind it. Environment errors are not part of this model. */
module GroupCommit {
  import opened Coding
  import opened DbFormat
  import opened WriteBatch

  // ---------- choosing a group ----------

  /** What the choice looks at: the size in bytes of the batch, none when there is no batch, and the sync option. */
  datatype Request = Request(size: Option<nat>, sync: bool)

  /** Groups grow to 1 MB, or by 128 KB when the first batch is small. */
  function MaxSize(first: nat): nat {
    if first <= 0x2_0000 then first + 0x2_0000 else 0x10_0000
  }

  /** The number of writers in the group, when `i` are in it and take `size` bytes. */
  function Take(q: seq<Request>, i: nat, size: nat, max: nat): (n: nat)
    requires 0 < i <= |q|
    ensures i <= n <= |q|
    decreases |q| - i
  {
    if i == |q| || (q[i].sync && !q[0].sync) then i
    else if q[i].size.None? then Take(q, i + 1, size, max)
    else if size + q[i].size.value > max then i
    else Take(q, i + 1, size + q[i].size.value, max)
  }

  /** The number of writers that the writer at the front commits: without a batch, itself. */
  function GroupSize(q: seq<Request>): (n: nat)
    requires q != []
    ensures 0 < n <= |q|
  {
    if q[0].size.None? then 1 else Take(q, 1, q[0].size.value, MaxSize(q[0].size.value))
  }

  function TotalSize(q: seq<Request>, n: nat): nat
    requires n <= |q|
  {
    if n == 0 then 0 else TotalSize(q, n - 1) + if q[n - 1].size.Some? then q[n - 1].size.value else 0
  }

  /** No sync write is in a group whose leader does not sync; a group of more than one batch is within its limit; and
      the group ends where it must. */
  lemma {:induction false} TakeIs(q: seq<Request>, i: nat, max: nat)
    requires 0 < i <= |q|
    requires forall j :: 0 <= j < i ==> q[j].sync ==> q[0].sync
    ensures
      var n := Take(q, i, TotalSize(q, i), max);
      && (forall j :: 0 <= j < n ==> q[j].sync ==> q[0].sync)
      && (TotalSize(q, n) <= max || TotalSize(q, n) == TotalSize(q, i))
      && (n < |q| ==> (q[n].sync && !q[0].sync) || TotalSize(q, n + 1) > max)
    decreases |q| - i
  {
    if i < |q| && !(q[i].sync && !q[0].sync) && (q[i].size.None? || TotalSize(q, i) + q[i].size.value <= max) {
      TakeIs(q, i + 1, max);
    }
  }

  /** The rules for a group led by a writer with a batch: a sync write only behind a sync leader; a limit of 1 MB, or of
      128 KB more than the first batch if that has at most 128 KB; and no end where neither says so. */
  lemma GroupIs(q: seq<Request>)
    requires q != [] && q[0].size.Some?
    ensures
      var n, first := GroupSize(q), q[0].size.value;
      && (forall j :: 0 <= j < n ==> q[j].sync ==> q[0].sync)
      && (first <= 131072 ==> TotalSize(q, n) <= first + 131072)
      && (first > 131072 ==> TotalSize(q, n) <= 1048576 || TotalSize(q, n) == first)
      && (n < |q| && !(q[n].sync && !q[0].sync) ==>
            TotalSize(q, n + 1) > if first <= 131072 then first + 131072 else 1048576)
      && (first <= 131072 && |q| > 1 && !(q[1].sync && !q[0].sync) && (q[1].size.None? || q[1].size.value <= 131072) ==>
            n > 1)
  {
    var first := q[0].size.value;
    assert TotalSize(q, 1) == TotalSize(q, 0) + first;
    TakeIs(q, 1, MaxSize(first));
  }

  class Writer {
    const batch: WriteBatch?
    const sync: bool
    ghost const records: seq<Record>

    constructor (batch: WriteBatch?, sync: bool, ghost records: seq<Record>)
      ensures this.batch == batch && this.sync == sync && this.records == records
    {
      this.batch, this.sync, this.records := batch, sync, records;
    }

    ghost predicate Valid()
      reads batch
    {
      if batch == null then records == [] else batch.Holds(0, records)
    }

    ghost function AsRequest(): Request
      reads batch
    {
      Request(if batch == null then None else Some(|batch.rep|), sync)
    }
  }

  ghost function Requests(writers: seq<Writer>): (q: seq<Request>)
    reads set w | w in writers :: w.batch
    ensures |q| == |writers| && forall i :: 0 <= i < |writers| ==> q[i] == writers[i].AsRequest()
  {
    if writers == [] then []
    else Requests(writers[..|writers| - 1]) + [writers[|writers| - 1].AsRequest()]
  }

  /** The records of the first `n` writers, in order. */
  ghost function Records(writers: seq<Writer>, n: nat): seq<Record>
    requires n <= |writers|
  {
    if n == 0 then [] else Records(writers, n - 1) + writers[n - 1].records
  }

  /** Every record takes at least one byte. */
  lemma {:induction false} ImageLength(records: seq<Record>)
    ensures |records| <= |Image(records)|
  {
    if records != [] {
      ImageLength(records[..|records| - 1]);
    }
  }

  /** Whether a writer stops the group, and the size of the group with it. */
  predicate Stops(r: Request, firstSync: bool, size: nat, max: nat) {
    (r.sync && !firstSync) || (r.size.Some? && size + r.size.value > max)
  }

  function Grown(r: Request, size: nat): nat {
    if r.size.Some? then size + r.size.value else size
  }

  /** One turn of the loop of `BuildBatchGroup`. */
  method AddWriter(result: WriteBatch, first: WriteBatch, firstSync: bool, tmp: WriteBatch, ghost so: seq<Record>,
                   w: Writer, size: nat, max: nat)
    returns (stop: bool, result': WriteBatch, size': nat)
    requires first != tmp && w.batch != tmp && w.Valid() && max <= 0x10_0000
    requires (result == first || result == tmp) && (result == first ==> tmp.Holds(0, []))
    requires result.Holds(0, so) && |result.rep| <= size
    modifies tmp
    ensures stop == old(Stops(w.AsRequest(), firstSync, size, max))
    ensures stop ==> result' == result && unchanged(tmp)
    ensures !stop ==> size' == old(Grown(w.AsRequest(), size))
    ensures !stop ==> result'.Holds(0, so + w.records) && |result'.rep| <= size'
    ensures (result' == first || result' == tmp) && (result' == first ==> tmp.Holds(0, []))
  {
    result', size' := result, size;
    if w.sync && !firstSync {
      return true, result', size';
    }
    if w.batch != null {
      size' := size + |w.batch.rep|;
      if size' > max {
        return true, result', size';
      }
      result' := Join(result, first, tmp, so, w.batch, w.records, size');
    } else {
      assert so + [] == so;
    }
    stop := false;
  }

  /** `BuildBatchGroup`: the batch of the first writer, or the temporary batch with those of the whole group. */
  method BuildBatchGroup(writers: seq<Writer>, tmp: WriteBatch) returns (result: WriteBatch, n: nat)
    requires writers != [] && writers[0].batch != null
    requires forall i :: 0 <= i < |writers| ==> writers[i].Valid() && writers[i].batch != tmp
    requires tmp.Holds(0, [])
    modifies tmp
    ensures n == old(GroupSize(Requests(writers)))
    ensures result.Holds(0, Records(writers, n))
    ensures result == writers[0].batch || result == tmp
  {
    hide WriteBatch.Holds, Take;
    ghost var q := Requests(writers);
    var first := writers[0];
    assert q[0] == first.AsRequest();
    result := first.batch;
    var size := |first.batch.rep|;
    var max := 0x10_0000;
    if size <= 0x2_0000 {
      max := size + 0x2_0000;
    }
    n := 1;
    RecordsNext(writers, 0);
    assert [] + first.records == first.records;
    var stop := false;
    while n < |writers| && !stop
      invariant 0 < n <= |writers| && max <= 0x10_0000
      invariant result == first.batch || result == tmp
      invariant result == first.batch ==> tmp.Holds(0, [])
      invariant result.Holds(0, Records(writers, n))
      invariant !stop ==> |result.rep| <= size && GroupSize(q) == Take(q, n, size, max)
      invariant stop ==> GroupSize(q) == n
      decreases |writers| - n, !stop
    {
      var w := writers[n];
      TakeNext(q, n, size, max);
      RecordsNext(writers, n);
      assert q[n] == old(w.AsRequest()) && old(w.Valid());
      assert w.batch != null ==> w.batch.rep == old(w.batch.rep);
      assert w.Valid() && q[n] == w.AsRequest();
      stop, result, size := AddWriter(result, first.batch, first.sync, tmp, Records(writers, n), w, size, max);
      if !stop {
        n := n + 1;
      }
    }
    if n == |writers| && !stop {
      TakeNext(q, n, size, max);
    }
  }

  lemma RecordsNext(writers: seq<Writer>, n: nat)
    requires n < |writers|
    ensures Records(writers, 0) == [] && Records(writers, n + 1) == Records(writers, n) + writers[n].records
  {
  }

  lemma TakeNext(q: seq<Request>, i: nat, size: nat, max: nat)
    requires 0 < i <= |q|
    ensures
      Take(q, i, size, max) ==
      if i == |q| || Stops(q[i], q[0].sync, size, max) then i else Take(q, i + 1, Grown(q[i], size), max)
  {
  }

  /** Appends a batch, switching to the temporary one first if that is still empty. */
  method Join(result: WriteBatch, first: WriteBatch, tmp: WriteBatch, ghost so: seq<Record>, batch: WriteBatch,
              ghost more: seq<Record>, size: nat)
    returns (joined: WriteBatch)
    requires result.Holds(0, so) && batch.Holds(0, more) && |result.rep| + |batch.rep| <= size <= 0x10_0000
    requires (result == first || result == tmp) && first != tmp && batch != tmp
    requires result == first ==> tmp.Holds(0, [])
    modifies tmp
    ensures joined == tmp && tmp.Holds(0, so + more) && |tmp.rep| <= size
  {
    hide Image, Encodable, Header;
    FewRecords(result, so, batch, more, size);
    joined := result;
    if joined == first {
      joined := tmp;
      EmptyBatch(tmp);
      joined.Append(first, 0, [], 0, so);
      assert [] + so == so;
    }
    joined.Append(batch, 0, so, 0, more);
  }

  lemma EmptyBatch(b: WriteBatch)
    requires b.Holds(0, [])
    ensures |b.rep| == HEADER
  {
  }

  lemma FewRecords(a: WriteBatch, so: seq<Record>, b: WriteBatch, more: seq<Record>, size: nat)
    requires a.Holds(0, so) && b.Holds(0, more) && |a.rep| + |b.rep| <= size <= 0x10_0000
    ensures |so| + |more| < TWO_32
  {
    ImageLength(so);
    ImageLength(more);
  }
}
