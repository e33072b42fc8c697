/** The compaction loop: one pass over the merged inputs that writes the surviving entries to output
    files (db/db_impl.cc, lines 878-999; db/version_set.cc, lines 1497-1576).

    An output file ends where it would overlap too much of the level below, or where it is full; the size of
    a file is an arbitrary function of its entries.  Corrupted keys, output errors and shutdown are not part of
    this model. */
module CompactionJob {
  import opened DbFormat
  import opened Version
  import opened Storage
  import opened Compaction
  import InputSelection

  // ---------- overlap with the grandparents ----------

  /** How many leading files end before `k`. */
  function Passed(files: seq<File>, k: InternalKey): (i: nat)
    ensures i <= |files| && (forall j :: 0 <= j < i ==> Less(files[j].largest, k))
    ensures i < |files| ==> !Less(files[i].largest, k)
  {
    if files == [] || !Less(files[0].largest, k) then 0 else 1 + Passed(files[1..], k)
  }

  /** The bytes of the files that end between two keys. */
  function OverlapBytes(files: seq<File>, first: InternalKey, last: InternalKey): nat {
    var i, j := Passed(files, first), Passed(files, last);
    if i <= j then InputSelection.TotalFileSize(files[i..j]) else 0
  }

  predicate UpTo(a: InternalKey, b: InternalKey) {
    a == b || Less(a, b)
  }

  lemma PassedGrows(files: seq<File>, a: InternalKey, b: InternalKey)
    requires UpTo(a, b)
    ensures Passed(files, a) <= Passed(files, b)
  {
    hide Less, UpTo;
    var i, j := Passed(files, a), Passed(files, b);
    if j < i {
      LessUpTo(files[j].largest, a, b);
    }
  }

  lemma LessUpTo(a: InternalKey, b: InternalKey, c: InternalKey)
    requires Less(a, b) && UpTo(b, c)
    ensures Less(a, c)
  {
  }

  lemma {:induction false} SizesAdd(files: seq<File>, i: nat, j: nat, k: nat)
    requires i <= j <= k <= |files|
    ensures InputSelection.TotalFileSize(files[i..k]) ==
            InputSelection.TotalFileSize(files[i..j]) + InputSelection.TotalFileSize(files[j..k])
    decreases j - i
  {
    if i < j {
      SizesAdd(files, i + 1, j, k);
      assert files[i..k][1..] == files[i + 1..k] && files[i..j][1..] == files[i + 1..j];
    } else {
      assert files[i..j] == [];
    }
  }

  lemma OverlapAdds(files: seq<File>, a: InternalKey, b: InternalKey, c: InternalKey)
    requires UpTo(a, b) && UpTo(b, c)
    ensures Passed(files, a) <= Passed(files, b) <= Passed(files, c)
    ensures OverlapBytes(files, a, c) ==
            OverlapBytes(files, a, b) + InputSelection.TotalFileSize(files[Passed(files, b)..Passed(files, c)])
  {
    PassedGrows(files, a, b);
    PassedGrows(files, b, c);
    SizesAdd(files, Passed(files, a), Passed(files, b), Passed(files, c));
  }

  class Job {
    const level: nat
    const inputVersion: Levels
    const levelPtrs: array<nat>
    /** The files two levels down that the compaction overlaps, and how many bytes of them an output may overlap. */
    const grandparents: seq<File>
    const maxOverlap: nat
    var grandparentIndex: nat
    var seenKey: bool
    var overlappedBytes: nat

    ghost predicate Valid() {
      && Ordered(inputVersion)
      && level + 1 < NUM_LEVELS
      && levelPtrs.Length == NUM_LEVELS
    }

    /** Every file that a level pointer has passed ends before `user`. */
    ghost predicate PassedBelow(user: UserKey)
      reads levelPtrs
      requires Valid()
    {
      forall l :: level + 2 <= l < NUM_LEVELS ==>
        levelPtrs[l] <= |inputVersion[l]| &&
        forall i :: 0 <= i < levelPtrs[l] ==> inputVersion[l][i].largest.user < user
    }

    constructor (level: nat, inputVersion: Levels, grandparents: seq<File>, maxOverlap: nat)
      requires Ordered(inputVersion) && level + 1 < NUM_LEVELS
      ensures Valid() && fresh(levelPtrs) && this.level == level && this.inputVersion == inputVersion
      ensures this.grandparents == grandparents && this.maxOverlap == maxOverlap
      ensures grandparentIndex == 0 && !seenKey && overlappedBytes == 0
      ensures forall user :: PassedBelow(user)
    {
      this.level := level;
      this.inputVersion := inputVersion;
      this.grandparents, this.maxOverlap := grandparents, maxOverlap;
      grandparentIndex, seenKey, overlappedBytes := 0, false, 0;
      levelPtrs := new nat[NUM_LEVELS](_ => 0);
    }

    /** The pointers only move forward, so calls must come with non-decreasing keys. */
    method IsBaseLevelForKey(user: UserKey) returns (r: bool)
      requires Valid() && PassedBelow(user)
      modifies levelPtrs
      ensures Valid() && PassedBelow(user)
      ensures r == BaseLevel(inputVersion, level, user)
    {
      for lvl := level + 2 to NUM_LEVELS
        invariant PassedBelow(user)
        invariant forall l, f :: level + 2 <= l < lvl && f in inputVersion[l] ==> !Spans(f, user)
      {
        var files := inputVersion[lvl];
        while levelPtrs[lvl] < |files|
          invariant PassedBelow(user)
          decreases |files| - levelPtrs[lvl]
        {
          var f := files[levelPtrs[lvl]];
          if user <= f.largest.user {
            if user >= f.smallest.user {
              assert f in inputVersion[lvl] && Spans(f, user);
              return false;
            }
            break;
          }
          levelPtrs[lvl] := levelPtrs[lvl] + 1;
        }
        assert Disjoint(files);
        forall i | 0 <= i < |files| ensures !Spans(files[i], user) {
          assert files[i] in files;
          if levelPtrs[lvl] < i {
            RangeAscends(files[levelPtrs[lvl]]);
          }
        }
      }
      return true;
    }

    /** Keys come in order; the files passed since the first of them, or since the last stop, are counted. */
    method ShouldStopBefore(key: InternalKey) returns (stop: bool)
      requires grandparentIndex <= Passed(grandparents, key)
      modifies this`grandparentIndex, this`seenKey, this`overlappedBytes
      ensures grandparentIndex == Passed(grandparents, key) && seenKey
      ensures
        var bytes := CountedBytes(grandparents, old(grandparentIndex), old(seenKey), old(overlappedBytes), key);
        stop == (bytes > maxOverlap) && overlappedBytes == if stop then 0 else bytes
    {
      hide Less, Passed;
      ghost var start, bytes := grandparentIndex, overlappedBytes;
      assert grandparents[start..start] == [];
      while grandparentIndex < |grandparents| && Less(grandparents[grandparentIndex].largest, key)
        invariant start <= grandparentIndex <= Passed(grandparents, key) && seenKey == old(seenKey)
        invariant overlappedBytes ==
          bytes + if seenKey then InputSelection.TotalFileSize(grandparents[start..grandparentIndex]) else 0
      {
        ghost var i, n := grandparentIndex, grandparentIndex + 1;
        SizesAdd(grandparents, start, i, n);
        OneFile(grandparents, i);
        if seenKey {
          overlappedBytes := overlappedBytes + grandparents[grandparentIndex].size;
        }
        grandparentIndex := grandparentIndex + 1;
      }
      seenKey := true;
      if overlappedBytes > maxOverlap {
        overlappedBytes := 0;
        return true;
      }
      return false;
    }
  }

  lemma OneFile(files: seq<File>, i: nat)
    requires i < |files|
    ensures InputSelection.TotalFileSize(files[i..i + 1]) == files[i].size
  {
    assert files[i..i + 1] == [files[i]] && [files[i]][1..] == [];
  }

  /** The count after `key`, from the files passed before and since. */
  function CountedBytes(files: seq<File>, index: nat, seen: bool, bytes: nat, key: InternalKey): nat {
    var n := Passed(files, key);
    bytes + if seen && index <= n then InputSelection.TotalFileSize(files[index..n]) else 0
  }

  /** The merged inputs: every input entry once, in internal key order. */
  ghost predicate Merged(c: Inputs, input: seq<Entry>) {
    && Sorted(input)
    && forall e :: e in input <==> InInputs(c, e)
  }

  /** No two entries for one user key have the same sequence number. */
  predicate DistinctSequences(input: seq<Entry>) {
    forall i, j :: 0 <= i < j < |input| && input[i].key.user == input[j].key.user ==>
      input[i].key.sn != input[j].key.sn
  }

  /** The loop's test at position `i`, which only looks at the previous entry. */
  predicate DropsAt(base: Levels, level: nat, smallestSnapshot: nat, input: seq<Entry>, i: int)
    requires 0 <= i < |input|
  {
    || (i > 0 && input[i - 1].key.user == input[i].key.user && input[i - 1].key.sn <= smallestSnapshot)
    || (input[i].key.kind.Deletion? && input[i].key.sn <= smallestSnapshot &&
        BaseLevel(base, level, input[i].key.user))
  }

  lemma DropsAtIsDropped(c: Inputs, base: Levels, smallestSnapshot: nat, input: seq<Entry>, i: int)
    requires Merged(c, input) && DistinctSequences(input) && 0 <= i < |input|
    ensures DropsAt(base, c.level, smallestSnapshot, input, i) <==> Dropped(c, base, smallestSnapshot, input[i])
  {
    var e := input[i];
    if i > 0 && input[i - 1].key.user == e.key.user && input[i - 1].key.sn <= smallestSnapshot {
      assert Less(input[i - 1].key, e.key);
      assert InInputs(c, input[i - 1]);
      assert Hidden(c, smallestSnapshot, e);
    }
    if Hidden(c, smallestSnapshot, e) {
      var d :| InInputs(c, d) && d.key.user == e.key.user && e.key.sn < d.key.sn <= smallestSnapshot;
      var j :| 0 <= j < |input| && input[j] == d;
      assert j < i;
      assert j == i - 1 || (Less(d.key, input[i - 1].key) && Less(input[i - 1].key, e.key));
    }
  }

  /** The entries written so far: closed outputs, then the open one. */
  ghost predicate Written(outs: seq<File>, open: seq<Entry>, e: Entry) {
    InOutputs(outs, e) || e in open
  }

  ghost predicate WellBuilt(outs: seq<File>, open: seq<Entry>) {
    && Sorted(open)
    && Disjoint(outs)
    && (forall o :: o in outs ==> FileOk(o))
    && (forall o, e :: o in outs && e in open ==> Less(o.largest, e.key))
  }

  /** After `i` input entries, exactly those marked in `keep` have been written. */
  ghost predicate Progress(keep: seq<bool>, input: seq<Entry>, i: nat, outs: seq<File>, open: seq<Entry>)
    requires i <= |input| == |keep|
  {
    && (forall k :: 0 <= k < i ==> (Written(outs, open, input[k]) <==> keep[k]))
    && (forall e :: Written(outs, open, e) ==> exists k :: 0 <= k < i && input[k] == e)
  }

  lemma KeepEntry(keep: seq<bool>, input: seq<Entry>, i: nat, outs: seq<File>, open: seq<Entry>)
    requires i < |input| == |keep| && Sorted(input) && Progress(keep, input, i, outs, open) && keep[i]
    ensures Progress(keep, input, i + 1, outs, open + [input[i]])
  {
    var more := open + [input[i]];
    forall e ensures Written(outs, more, e) <==> Written(outs, open, e) || e == input[i] {
    }
    forall k | 0 <= k < i ensures input[k] != input[i] {
      assert Less(input[k].key, input[i].key);
    }
  }

  lemma KeepBuilt(keep: seq<bool>, input: seq<Entry>, i: nat, outs: seq<File>, open: seq<Entry>)
    requires i < |input| == |keep| && Sorted(input) && Progress(keep, input, i, outs, open)
    requires WellBuilt(outs, open)
    ensures WellBuilt(outs, open + [input[i]])
  {
    forall e | Written(outs, open, e) ensures Less(e.key, input[i].key) {
      var k :| 0 <= k < i && input[k] == e;
    }
    forall o | o in outs ensures Less(o.largest, input[i].key) {
      assert InOutputs(outs, o.entries[|o.entries| - 1]);
      assert Written(outs, open, o.entries[|o.entries| - 1]);
    }
    forall k | 0 <= k < |open| ensures Less(open[k].key, input[i].key) {
      assert Written(outs, open, open[k]);
    }
  }

  lemma SkipEntry(keep: seq<bool>, input: seq<Entry>, i: nat, outs: seq<File>, open: seq<Entry>)
    requires i < |input| == |keep| && Sorted(input) && Progress(keep, input, i, outs, open) && !keep[i]
    ensures Progress(keep, input, i + 1, outs, open)
  {
    forall k | 0 <= k < i ensures input[k] != input[i] {
      assert Less(input[k].key, input[i].key);
    }
  }

  lemma NothingWritten(keep: seq<bool>, input: seq<Entry>)
    requires |keep| == |input|
    ensures WellBuilt([], []) && Progress(keep, input, 0, [], [])
  {
  }

  /** Closing the open output moves entries and loses none. */
  lemma SameProgress(keep: seq<bool>, input: seq<Entry>, i: nat, outs: seq<File>, open: seq<Entry>,
                     r: seq<File>, rest: seq<Entry>)
    requires i <= |input| == |keep| && Progress(keep, input, i, outs, open)
    requires forall e :: Written(r, rest, e) <==> Written(outs, open, e)
    ensures Progress(keep, input, i, r, rest)
  {
    hide Written;
    forall e | Written(r, rest, e) ensures exists k :: 0 <= k < i && input[k] == e {
      assert Written(outs, open, e);
    }
  }

  lemma WrittenIsInput(keep: seq<bool>, input: seq<Entry>, i: nat, outs: seq<File>, open: seq<Entry>)
    requires i <= |input| == |keep| && Progress(keep, input, i, outs, open)
    ensures forall e :: Written(outs, open, e) ==> e in input
  {
    hide Written;
  }

  /** The outputs overlap no more of the grandparents than allowed. */
  predicate WithinOverlap(files: seq<File>, max: nat, outs: seq<File>) {
    forall o :: o in outs ==> OverlapBytes(files, o.smallest, o.largest) <= max
  }

  /** The entry from which grandparents are counted before entry `i`: the first one, or the last one that ended an
      output. */
  function CountedFrom(files: seq<File>, max: nat, input: seq<Entry>, i: nat): (b: nat)
    requires 1 <= i <= |input|
    ensures b < i
    decreases i, 0
  {
    if i == 1 then 0 else if StopsAt(files, max, input, i - 1) then i - 1 else CountedFrom(files, max, input, i - 1)
  }

  /** Entry `i` is the first that takes the count past the limit: no output goes on with it. */
  predicate StopsAt(files: seq<File>, max: nat, input: seq<Entry>, i: nat)
    requires i < |input|
    decreases i, 1
  {
    i > 0 && OverlapBytes(files, input[CountedFrom(files, max, input, i)].key, input[i].key) > max
  }

  /** Between two stops the count stays within the limit. */
  lemma {:induction false} StopIsFirst(files: seq<File>, max: nat, input: seq<Entry>, i: nat)
    requires 1 <= i <= |input|
    ensures
      var b := CountedFrom(files, max, input, i);
      && (b == 0 || StopsAt(files, max, input, b))
      && forall p :: b < p < i ==>
           !StopsAt(files, max, input, p) && OverlapBytes(files, input[b].key, input[p].key) <= max
    decreases i
  {
    hide OverlapBytes;
    if i > 1 && !StopsAt(files, max, input, i - 1) {
      StopIsFirst(files, max, input, i - 1);
    }
  }

  /** The grandparents passed since the open output began are counted, up to the entry before position `i`. */
  predicate Watching(files: seq<File>, max: nat, index: nat, seen: bool, bytes: nat, input: seq<Entry>, i: nat,
                     outs: seq<File>, builder: seq<Entry>)
    requires i <= |input|
  {
    && WithinOverlap(files, max, outs)
    && bytes <= max
    && (if i == 0 then index == 0 && !seen && bytes == 0 && builder == []
        else
          && seen && index == Passed(files, input[i - 1].key)
          && bytes == OverlapBytes(files, input[CountedFrom(files, max, input, i)].key, input[i - 1].key))
    && (builder != [] ==>
          && i > 0
          && UpTo(builder[0].key, builder[|builder| - 1].key)
          && UpTo(builder[|builder| - 1].key, input[i - 1].key)
          && OverlapBytes(files, builder[0].key, input[i - 1].key) <= bytes)
  }

  /** The open output, if it ends here, is within its limit. */
  lemma OpenWithin(files: seq<File>, max: nat, index: nat, seen: bool, bytes: nat, input: seq<Entry>, i: nat,
                   outs: seq<File>, builder: seq<Entry>, o: File)
    requires i <= |input| && Watching(files, max, index, seen, bytes, input, i, outs, builder) && builder != []
    requires o.smallest == builder[0].key && o.largest == builder[|builder| - 1].key
    ensures WithinOverlap(files, max, outs + [o])
  {
    hide OverlapBytes, Passed, Less;
    OverlapAdds(files, builder[0].key, builder[|builder| - 1].key, input[i - 1].key);
  }

  /** On to the next entry, which stays in the open output if the limit allows it. */
  lemma WatchNext(files: seq<File>, max: nat, index: nat, seen: bool, bytes: nat, input: seq<Entry>, i: nat,
                  outs: seq<File>, builder: seq<Entry>)
    requires i < |input| && Sorted(input) && Watching(files, max, index, seen, bytes, input, i, outs, builder)
    ensures index <= Passed(files, input[i].key)
    ensures
      var n, more := Passed(files, input[i].key), CountedBytes(files, index, seen, bytes, input[i].key);
      && (more > max <==> StopsAt(files, max, input, i))
      && (more <= max ==> Watching(files, max, n, true, more, input, i + 1, outs, builder))
      && (more > max && builder == [] ==> Watching(files, max, n, true, 0, input, i + 1, outs, []))
  {
    hide OverlapBytes, Passed, Sorted, WithinOverlap;
    NoOverlapWithin(files, input[i].key);
    if i > 0 {
      SortedNext(input, i);
      CountedUpTo(input, CountedFrom(files, max, input, i), i - 1);
      OverlapAdds(files, input[CountedFrom(files, max, input, i)].key, input[i - 1].key, input[i].key);
      if builder != [] {
        hide Less;
        OverlapAdds(files, builder[0].key, input[i - 1].key, input[i].key);
        Onward(builder[|builder| - 1].key, input[i - 1].key, input[i].key);
      }
    }
  }

  lemma NoOverlapWithin(files: seq<File>, k: InternalKey)
    ensures OverlapBytes(files, k, k) == 0
  {
    assert files[Passed(files, k)..Passed(files, k)] == [];
  }

  lemma CountedUpTo(input: seq<Entry>, a: nat, b: nat)
    requires Sorted(input) && a <= b < |input|
    ensures UpTo(input[a].key, input[b].key)
  {
  }

  lemma SortedNext(input: seq<Entry>, i: nat)
    requires Sorted(input) && 0 < i < |input|
    ensures Less(input[i - 1].key, input[i].key)
  {
  }

  lemma Onward(a: InternalKey, b: InternalKey, c: InternalKey)
    requires UpTo(a, b) && UpTo(b, c)
    ensures UpTo(a, c)
  {
  }

  /** Entry `i` joins the open output. */
  lemma WatchKept(files: seq<File>, max: nat, index: nat, bytes: nat, input: seq<Entry>, i: nat, outs: seq<File>,
                  builder: seq<Entry>)
    requires i < |input| && Watching(files, max, index, true, bytes, input, i + 1, outs, builder)
    ensures Watching(files, max, index, true, bytes, input, i + 1, outs, builder + [input[i]])
  {
    hide Passed, WithinOverlap, Less;
    if builder == [] {
      assert OverlapBytes(files, input[i].key, input[i].key) == 0;
    } else {
      hide OverlapBytes;
      Onward(builder[0].key, builder[|builder| - 1].key, input[i].key);
    }
  }

  // ---------- where outputs end ----------

  predicate NotOverfull(full: seq<Entry> -> bool, entries: seq<Entry>) {
    forall k :: 0 < k < |entries| ==> !full(entries[..k])
  }

  /** No stop falls after `a` and up to `b`. */
  predicate NoStopWithin(files: seq<File>, max: nat, input: seq<Entry>, a: InternalKey, b: InternalKey) {
    forall j :: 0 <= j < |input| && StopsAt(files, max, input, j) ==> !(Less(a, input[j].key) && UpTo(input[j].key, b))
  }

  ghost predicate StopBetween(files: seq<File>, max: nat, input: seq<Entry>, a: InternalKey, b: InternalKey) {
    exists j :: 0 <= j < |input| && StopsAt(files, max, input, j) && Less(a, input[j].key) && UpTo(input[j].key, b)
  }

  /** An output ends before `next` because it is full or because of a stop. */
  ghost predicate Ends(files: seq<File>, max: nat, full: seq<Entry> -> bool, input: seq<Entry>, o: File,
                       next: InternalKey)
  {
    full(o.entries) || StopBetween(files, max, input, o.largest, next)
  }

  predicate GoodOutput(files: seq<File>, max: nat, full: seq<Entry> -> bool, input: seq<Entry>, o: File) {
    NotOverfull(full, o.entries) && NoStopWithin(files, max, input, o.smallest, o.largest)
  }

  ghost predicate AllEnd(files: seq<File>, max: nat, full: seq<Entry> -> bool, input: seq<Entry>, outs: seq<File>) {
    && (forall o :: o in outs ==> GoodOutput(files, max, full, input, o))
    && (forall m {:trigger outs[m]} :: 0 <= m && m + 1 < |outs| ==>
          Ends(files, max, full, input, outs[m], outs[m + 1].smallest))
  }

  /** The last output has ended before position `i`. */
  ghost predicate LastEnded(files: seq<File>, max: nat, full: seq<Entry> -> bool, input: seq<Entry>, i: nat,
                            outs: seq<File>)
    requires i <= |input|
  {
    outs != [] ==>
      var o := outs[|outs| - 1];
      full(o.entries) || exists j :: 0 <= j < i && StopsAt(files, max, input, j) && Less(o.largest, input[j].key)
  }

  /** The open output has not become full, and there was no stop since its first entry. */
  ghost predicate OpenGoesOn(files: seq<File>, max: nat, full: seq<Entry> -> bool, input: seq<Entry>, i: nat,
                             outs: seq<File>, builder: seq<Entry>)
    requires i <= |input| && builder != []
  {
    && (forall k :: 0 < k <= |builder| ==> !full(builder[..k]))
    && (forall j :: 0 <= j < i && StopsAt(files, max, input, j) ==> UpTo(input[j].key, builder[0].key))
    && (outs != [] ==> Ends(files, max, full, input, outs[|outs| - 1], builder[0].key))
  }

  ghost predicate Cutting(files: seq<File>, max: nat, full: seq<Entry> -> bool, input: seq<Entry>, i: nat,
                          outs: seq<File>, builder: seq<Entry>)
    requires i <= |input|
  {
    && AllEnd(files, max, full, input, outs)
    && if builder == [] then LastEnded(files, max, full, input, i, outs)
       else OpenGoesOn(files, max, full, input, i, outs, builder)
  }

  /** Past an entry without a stop, or with no output open. */
  lemma CutNext(files: seq<File>, max: nat, full: seq<Entry> -> bool, input: seq<Entry>, i: nat, outs: seq<File>,
                builder: seq<Entry>)
    requires i < |input| && Cutting(files, max, full, input, i, outs, builder)
    requires builder == [] || !StopsAt(files, max, input, i)
    ensures Cutting(files, max, full, input, i + 1, outs, builder)
  {
    hide AllEnd, Ends, Less, UpTo, StopsAt;
  }

  /** The open output becomes a file; `n` is where the next entry comes from. */
  lemma CutFinished(files: seq<File>, max: nat, full: seq<Entry> -> bool, input: seq<Entry>, n: nat, outs: seq<File>,
                    builder: seq<Entry>, r: seq<File>)
    requires n <= |input| && Sorted(input) && builder != [] && Finished(outs, builder, r)
    requires AllEnd(files, max, full, input, outs)
    requires forall k :: 0 < k < |builder| ==> !full(builder[..k])
    requires forall j :: 0 <= j < n && StopsAt(files, max, input, j) ==> UpTo(input[j].key, builder[0].key)
    requires outs != [] ==> Ends(files, max, full, input, outs[|outs| - 1], builder[0].key)
    requires n > 0 && UpTo(builder[|builder| - 1].key, input[n - 1].key)
    ensures AllEnd(files, max, full, input, r)
  {
    hide StopsAt, Ends;
    var o := r[|outs|];
    forall j | 0 <= j < |input| && StopsAt(files, max, input, j)
      ensures !(Less(o.smallest, input[j].key) && UpTo(input[j].key, o.largest))
    {
      if j >= n {
        CountedUpTo(input, n, j);
        SortedNext(input, n);
      }
    }
    assert GoodOutput(files, max, full, input, o);
    hide GoodOutput;
    forall m {:trigger r[m]} | 0 <= m && m + 1 < |r| ensures Ends(files, max, full, input, r[m], r[m + 1].smallest) {
      if m + 1 < |outs| {
        assert r[m] == outs[m] && r[m + 1] == outs[m + 1];
      } else {
        assert r[m] == outs[|outs| - 1];
      }
    }
  }

  /** A stop at entry `i` ends the open output. */
  lemma CutStopped(files: seq<File>, max: nat, full: seq<Entry> -> bool, input: seq<Entry>, i: nat, outs: seq<File>,
                   builder: seq<Entry>, r: seq<File>)
    requires 0 < i < |input| && Sorted(input) && builder != [] && Finished(outs, builder, r)
    requires Cutting(files, max, full, input, i, outs, builder) && StopsAt(files, max, input, i)
    requires UpTo(builder[|builder| - 1].key, input[i - 1].key)
    ensures Cutting(files, max, full, input, i + 1, r, [])
  {
    CutFinished(files, max, full, input, i, outs, builder, r);
    hide AllEnd, StopsAt;
    SortedNext(input, i);
  }

  /** Entry `i` has joined the open output, which ends if it is full now. */
  lemma CutAdded(files: seq<File>, max: nat, full: seq<Entry> -> bool, input: seq<Entry>, i: nat, outs: seq<File>,
                 builder: seq<Entry>)
    requires i < |input| && Sorted(input) && Cutting(files, max, full, input, i + 1, outs, builder)
    ensures
      var open := builder + [input[i]];
      && AllEnd(files, max, full, input, outs)
      && (forall k :: 0 < k < |open| ==> !full(open[..k]))
      && (forall j :: 0 <= j < i + 1 && StopsAt(files, max, input, j) ==> UpTo(input[j].key, open[0].key))
      && (outs != [] ==> Ends(files, max, full, input, outs[|outs| - 1], open[0].key))
  {
    hide AllEnd, StopsAt, Less;
    var open := builder + [input[i]];
    forall k | 0 < k < |open| ensures !full(open[..k]) {
      assert open[..k] == builder[..k];
    }
    forall j | 0 <= j < i + 1 ensures UpTo(input[j].key, input[i].key) {
      CountedUpTo(input, j, i);
    }
  }

  lemma CutOpen(files: seq<File>, max: nat, full: seq<Entry> -> bool, input: seq<Entry>, i: nat, outs: seq<File>,
                builder: seq<Entry>)
    requires i < |input| && Sorted(input) && Cutting(files, max, full, input, i + 1, outs, builder)
    requires !full(builder + [input[i]])
    ensures Cutting(files, max, full, input, i + 1, outs, builder + [input[i]])
  {
    CutAdded(files, max, full, input, i, outs, builder);
    hide AllEnd, StopsAt, Less, UpTo, Ends;
    var open := builder + [input[i]];
    assert open[..|open|] == open;
  }

  lemma CutFull(files: seq<File>, max: nat, full: seq<Entry> -> bool, input: seq<Entry>, i: nat, outs: seq<File>,
                builder: seq<Entry>, r: seq<File>)
    requires i < |input| && Sorted(input) && Cutting(files, max, full, input, i + 1, outs, builder)
    requires full(builder + [input[i]]) && Finished(outs, builder + [input[i]], r)
    ensures Cutting(files, max, full, input, i + 1, r, [])
  {
    CutAdded(files, max, full, input, i, outs, builder);
    CutFinished(files, max, full, input, i + 1, outs, builder + [input[i]], r);
    hide AllEnd, StopsAt, Less, UpTo, Ends;
  }

  /** What a stop means for the keys around it: so many bytes lie between some earlier entry and the next output. */
  lemma EndsIsOverlap(files: seq<File>, max: nat, full: seq<Entry> -> bool, input: seq<Entry>, o: File,
                      next: InternalKey)
    requires Sorted(input) && Ends(files, max, full, input, o, next)
    ensures full(o.entries) ||
      exists k :: 0 <= k < |input| && UpTo(input[k].key, next) && OverlapBytes(files, input[k].key, next) > max
  {
    hide OverlapBytes, Less;
    if !full(o.entries) {
      var j :| 0 <= j < |input| && StopsAt(files, max, input, j) && Less(o.largest, input[j].key) &&
        UpTo(input[j].key, next);
      var k := CountedFrom(files, max, input, j);
      CountedUpTo(input, k, j);
      OverlapAdds(files, input[k].key, input[j].key, next);
      Onward(input[k].key, input[j].key, next);
    }
  }

  method DoCompactionWork(job: Job, c: Inputs, input: seq<Entry>, smallestSnapshot: nat, number: nat -> nat,
                          full: seq<Entry> -> bool, size: seq<Entry> -> nat)
    returns (outs: seq<File>)
    requires job.Valid() && (forall user :: job.PassedBelow(user))
    requires job.grandparentIndex == 0 && !job.seenKey && job.overlappedBytes == 0
    requires c.level == job.level && Merged(c, input) && DistinctSequences(input)
    requires smallestSnapshot < MAX_SEQUENCE && forall e :: e in input ==> e.key.sn <= MAX_SEQUENCE
    modifies job`grandparentIndex, job`seenKey, job`overlappedBytes, job.levelPtrs
    ensures Compacted(c, job.inputVersion, smallestSnapshot, outs)
    ensures forall o :: o in outs ==> OverlapBytes(job.grandparents, o.smallest, o.largest) <= job.maxOverlap
    ensures forall o, k :: o in outs && 0 < k < |o.entries| ==> !full(o.entries[..k])
    ensures forall o :: o in outs ==> NoStopWithin(job.grandparents, job.maxOverlap, input, o.smallest, o.largest)
    ensures forall i {:trigger outs[i]} :: 0 <= i && i + 1 < |outs| ==>
      full(outs[i].entries) ||
      StopBetween(job.grandparents, job.maxOverlap, input, outs[i].largest, outs[i + 1].smallest)
    ensures forall i {:trigger outs[i]} :: 0 <= i && i + 1 < |outs| ==>
      full(outs[i].entries) ||
      exists k :: 0 <= k < |input| && UpTo(input[k].key, outs[i + 1].smallest) &&
        OverlapBytes(job.grandparents, input[k].key, outs[i + 1].smallest) > job.maxOverlap
    ensures Disjoint(outs) && forall o :: o in outs ==> FileOk(o)
    ensures forall i :: 0 <= i < |outs| ==> outs[i].number == number(i)
  {
    hide DropsAt, WellBuilt, Progress, Written, Sorted, DistinctSequences, Compacted, Ordered, Disjoint, InInputs, Less,
         OverlapBytes, Passed, Watching, WithinOverlap, Cutting, StopsAt, AllEnd, NoStopWithin, StopBetween;
    hide Job.PassedBelow;
    outs := [];
    var builder: seq<Entry> := [];
    var currentUserKey: Option<UserKey> := None;
    var lastSequenceForKey := MAX_SEQUENCE;
    ghost var keep := seq(|input|, k requires 0 <= k < |input| =>
                            !DropsAt(job.inputVersion, job.level, smallestSnapshot, input, k));
    NothingWritten(keep, input);
    WatchNothing(job.grandparents, job.maxOverlap, full, input);
    for i := 0 to |input|
      invariant job.Valid() && AtPosition(job, input, i, currentUserKey, lastSequenceForKey)
      invariant WellBuilt(outs, builder) && Progress(keep, input, i, outs, builder)
      invariant Watching(job.grandparents, job.maxOverlap, job.grandparentIndex, job.seenKey, job.overlappedBytes,
                         input, i, outs, builder)
      invariant Cutting(job.grandparents, job.maxOverlap, full, input, i, outs, builder)
      invariant forall k :: 0 <= k < |outs| ==> outs[k].number == number(k)
    {
      var drop;
      outs, builder := StopBefore(job, keep, input, i, outs, builder, number, full, size);
      drop, currentUserKey, lastSequenceForKey :=
        TestEntry(job, input, i, smallestSnapshot, currentUserKey, lastSequenceForKey);
      outs, builder := WriteEntry(job, drop, keep, input, i, outs, builder, number, full, size);
    }
    outs, builder := LastOutput(job, keep, input, outs, builder, number, full, size);
    BuiltFiles(outs);
    EndReasons(job.grandparents, job.maxOverlap, full, input, outs);
    ProgressIsCompacted(c, job.inputVersion, smallestSnapshot, input, keep, outs);
  }

  lemma WatchNothing(files: seq<File>, max: nat, full: seq<Entry> -> bool, input: seq<Entry>)
    ensures Watching(files, max, 0, false, 0, input, 0, [], [])
    ensures Cutting(files, max, full, input, 0, [], [])
  {
  }

  lemma EndReasons(files: seq<File>, max: nat, full: seq<Entry> -> bool, input: seq<Entry>, outs: seq<File>)
    requires Sorted(input) && AllEnd(files, max, full, input, outs)
    ensures forall o, k :: o in outs && 0 < k < |o.entries| ==> !full(o.entries[..k])
    ensures forall o :: o in outs ==> NoStopWithin(files, max, input, o.smallest, o.largest)
    ensures forall i {:trigger outs[i]} :: 0 <= i && i + 1 < |outs| ==>
      full(outs[i].entries) || StopBetween(files, max, input, outs[i].largest, outs[i + 1].smallest)
    ensures forall i {:trigger outs[i]} :: 0 <= i && i + 1 < |outs| ==>
      full(outs[i].entries) ||
      exists k :: 0 <= k < |input| && UpTo(input[k].key, outs[i + 1].smallest) &&
        OverlapBytes(files, input[k].key, outs[i + 1].smallest) > max
  {
    hide NoStopWithin, StopBetween, OverlapBytes, Less, UpTo, StopsAt;
    forall o, k | o in outs && 0 < k < |o.entries| ensures !full(o.entries[..k]) {
      assert GoodOutput(files, max, full, input, o);
    }
    forall i {:trigger outs[i]} | 0 <= i && i + 1 < |outs|
      ensures full(outs[i].entries) ||
        exists k :: 0 <= k < |input| && UpTo(input[k].key, outs[i + 1].smallest) &&
          OverlapBytes(files, input[k].key, outs[i + 1].smallest) > max
    {
      EndsIsOverlap(files, max, full, input, outs[i], outs[i + 1].smallest);
    }
  }

  /** Ends the open output before entry `i` if it would overlap too much with it. */
  method StopBefore(job: Job, ghost keep: seq<bool>, input: seq<Entry>, i: nat, outs: seq<File>, builder: seq<Entry>,
                    number: nat -> nat, ghost full: seq<Entry> -> bool, size: seq<Entry> -> nat)
    returns (r: seq<File>, open: seq<Entry>)
    requires i < |input| == |keep| && Sorted(input) && WellBuilt(outs, builder) && Progress(keep, input, i, outs, builder)
    requires forall e :: e in input ==> e.key.sn <= MAX_SEQUENCE
    requires Watching(job.grandparents, job.maxOverlap, job.grandparentIndex, job.seenKey, job.overlappedBytes, input, i,
                      outs, builder)
    requires Cutting(job.grandparents, job.maxOverlap, full, input, i, outs, builder)
    requires forall k :: 0 <= k < |outs| ==> outs[k].number == number(k)
    modifies job`grandparentIndex, job`seenKey, job`overlappedBytes
    ensures WellBuilt(r, open) && Progress(keep, input, i, r, open)
    ensures Watching(job.grandparents, job.maxOverlap, job.grandparentIndex, job.seenKey, job.overlappedBytes, input,
                     i + 1, r, open)
    ensures Cutting(job.grandparents, job.maxOverlap, full, input, i + 1, r, open)
    ensures forall k :: 0 <= k < |r| ==> r[k].number == number(k)
  {
    hide WellBuilt, Progress, Sorted, Watching, WithinOverlap, Passed, Less, Cutting, StopsAt, UpTo, Finished;
    ghost var files, max, index := job.grandparents, job.maxOverlap, job.grandparentIndex;
    ghost var seen, bytes := job.seenKey, job.overlappedBytes;
    WatchNext(files, max, index, seen, bytes, input, i, outs, builder);
    var stop := job.ShouldStopBefore(input[i].key);
    r, open := outs, builder;
    if stop && builder != [] {
      r, open := FinishProgress(keep, input, i, outs, builder, number, size);
      WatchFinished(files, max, index, seen, bytes, input, i, outs, builder, r);
      WatchNext(files, max, index, seen, bytes, input, i, r, []);
      OpenBefore(files, max, index, seen, bytes, input, i, outs, builder);
      CutStopped(files, max, full, input, i, outs, builder, r);
    } else {
      CutNext(files, max, full, input, i, outs, builder);
    }
  }

  lemma OpenBefore(files: seq<File>, max: nat, index: nat, seen: bool, bytes: nat, input: seq<Entry>, i: nat,
                   outs: seq<File>, builder: seq<Entry>)
    requires i <= |input| && Watching(files, max, index, seen, bytes, input, i, outs, builder) && builder != []
    ensures i > 0 && UpTo(builder[|builder| - 1].key, input[i - 1].key)
  {
    hide OverlapBytes, Passed, Less, WithinOverlap, UpTo;
  }

  /** The open output has been closed. */
  lemma WatchFinished(files: seq<File>, max: nat, index: nat, seen: bool, bytes: nat, input: seq<Entry>, i: nat,
                      outs: seq<File>, builder: seq<Entry>, r: seq<File>)
    requires i <= |input| && Watching(files, max, index, seen, bytes, input, i, outs, builder) && builder != []
    requires Finished(outs, builder, r)
    ensures Watching(files, max, index, seen, bytes, input, i, r, [])
  {
    hide OverlapBytes, Passed, Less, WithinOverlap, UpTo;
    OpenWithin(files, max, index, seen, bytes, input, i, outs, builder, r[|outs|]);
  }

  /** The file made of the open entries comes after the files so far. */
  predicate Finished(outs: seq<File>, builder: seq<Entry>, r: seq<File>)
    requires builder != []
  {
    && |r| == |outs| + 1
    && r == outs + [r[|outs|]]
    && r[|outs|].smallest == builder[0].key
    && r[|outs|].largest == builder[|builder| - 1].key
    && r[|outs|].entries == builder
  }

  /** Closes the open output at the end of the input. */
  method LastOutput(job: Job, ghost keep: seq<bool>, ghost input: seq<Entry>, outs: seq<File>, builder: seq<Entry>,
                    number: nat -> nat, ghost full: seq<Entry> -> bool, size: seq<Entry> -> nat)
    returns (r: seq<File>, open: seq<Entry>)
    requires |input| == |keep| && WellBuilt(outs, builder) && Progress(keep, input, |input|, outs, builder)
    requires forall e :: e in input ==> e.key.sn <= MAX_SEQUENCE
    requires Watching(job.grandparents, job.maxOverlap, job.grandparentIndex, job.seenKey, job.overlappedBytes, input,
                      |input|, outs, builder)
    requires Sorted(input) && Cutting(job.grandparents, job.maxOverlap, full, input, |input|, outs, builder)
    requires forall k :: 0 <= k < |outs| ==> outs[k].number == number(k)
    ensures open == [] && WellBuilt(r, open) && Progress(keep, input, |input|, r, open)
    ensures forall o :: o in r ==> OverlapBytes(job.grandparents, o.smallest, o.largest) <= job.maxOverlap
    ensures AllEnd(job.grandparents, job.maxOverlap, full, input, r)
    ensures forall k :: 0 <= k < |r| ==> r[k].number == number(k)
  {
    hide WellBuilt, Progress, Passed, Less, OverlapBytes, UpTo, Sorted, AllEnd, StopsAt, Finished, CountedFrom;
    r, open := outs, builder;
    if builder != [] {
      OpenBefore(job.grandparents, job.maxOverlap, job.grandparentIndex, job.seenKey, job.overlappedBytes, input,
                 |input|, outs, builder);
      r, open := FinishProgress(keep, input, |input|, outs, builder, number, size);
      WatchFinished(job.grandparents, job.maxOverlap, job.grandparentIndex, job.seenKey, job.overlappedBytes, input,
                    |input|, outs, builder, r);
      CutFinished(job.grandparents, job.maxOverlap, full, input, |input|, outs, builder, r);
    }
  }

  lemma BuiltFiles(outs: seq<File>)
    requires WellBuilt(outs, [])
    ensures Disjoint(outs) && forall o :: o in outs ==> FileOk(o)
  {
  }

  /** Closes the open output file between two entries. */
  method FinishProgress(ghost keep: seq<bool>, ghost input: seq<Entry>, ghost i: nat, outs: seq<File>,
                        builder: seq<Entry>, number: nat -> nat, size: seq<Entry> -> nat)
    returns (r: seq<File>, rest: seq<Entry>)
    requires builder != [] && WellBuilt(outs, builder)
    requires i <= |input| == |keep| && Progress(keep, input, i, outs, builder)
    requires forall e :: e in input ==> e.key.sn <= MAX_SEQUENCE
    requires forall k :: 0 <= k < |outs| ==> outs[k].number == number(k)
    ensures rest == [] && WellBuilt(r, rest) && Progress(keep, input, i, r, rest) && Finished(outs, builder, r)
    ensures forall k :: 0 <= k < |r| ==> r[k].number == number(k)
  {
    hide WellBuilt, Progress, Written;
    WrittenIsInput(keep, input, i, outs, builder);
    r, rest := FinishOutput(outs, builder, number, size, input);
    SameProgress(keep, input, i, outs, builder, r, rest);
  }

  /** The loop's memory of the entry before position `i`. */
  ghost predicate AtPosition(job: Job, input: seq<Entry>, i: nat, currentUserKey: Option<UserKey>,
                             lastSequenceForKey: nat)
    requires job.Valid() && i <= |input|
    reads job.levelPtrs
  {
    if i == 0 then currentUserKey == None && forall user :: job.PassedBelow(user)
    else
      && currentUserKey == Some(input[i - 1].key.user)
      && lastSequenceForKey == input[i - 1].key.sn
      && job.PassedBelow(input[i - 1].key.user)
  }

  /** Decides whether entry `i` is dropped. */
  method TestEntry(job: Job, input: seq<Entry>, i: nat, smallestSnapshot: nat,
                   userKey: Option<UserKey>, lastSequence: nat)
    returns (drop: bool, currentUserKey: Option<UserKey>, lastSequenceForKey: nat)
    requires job.Valid() && i < |input| && Sorted(input) && smallestSnapshot < MAX_SEQUENCE
    requires AtPosition(job, input, i, userKey, lastSequence)
    modifies job.levelPtrs
    ensures job.Valid() && AtPosition(job, input, i + 1, currentUserKey, lastSequenceForKey)
    ensures drop == DropsAt(job.inputVersion, job.level, smallestSnapshot, input, i)
  {
    var key := input[i].key;
    drop, currentUserKey, lastSequenceForKey := false, userKey, lastSequence;
    if currentUserKey != Some(key.user) {
      currentUserKey := Some(key.user);
      lastSequenceForKey := MAX_SEQUENCE;
    }
    assert i > 0 ==> Less(input[i - 1].key, key);
    assert job.PassedBelow(key.user);
    if lastSequenceForKey <= smallestSnapshot {
      drop := true;
    } else if key.kind.Deletion? && key.sn <= smallestSnapshot {
      drop := job.IsBaseLevelForKey(key.user);
    }
    lastSequenceForKey := key.sn;
  }

  lemma ProgressIsCompacted(c: Inputs, base: Levels, smallestSnapshot: nat, input: seq<Entry>, keep: seq<bool>,
                            outs: seq<File>)
    requires Merged(c, input) && DistinctSequences(input) && |keep| == |input|
    requires forall k :: 0 <= k < |input| ==> keep[k] == !DropsAt(base, c.level, smallestSnapshot, input, k)
    requires Progress(keep, input, |input|, outs, [])
    ensures Compacted(c, base, smallestSnapshot, outs)
  {
    forall e ensures InOutputs(outs, e) <==> InInputs(c, e) && !Dropped(c, base, smallestSnapshot, e) {
      assert InOutputs(outs, e) <==> Written(outs, [], e);
      if e in input {
        var k :| 0 <= k < |input| && input[k] == e;
        DropsAtIsDropped(c, base, smallestSnapshot, input, k);
      }
    }
  }

  /** Adds entry `i` to the open output unless it is dropped. */
  method WriteEntry(job: Job, drop: bool, ghost keep: seq<bool>, input: seq<Entry>, i: nat, outs: seq<File>,
                    builder: seq<Entry>, number: nat -> nat, full: seq<Entry> -> bool, size: seq<Entry> -> nat)
    returns (r: seq<File>, open: seq<Entry>)
    requires i < |input| == |keep| && Sorted(input) && drop == !keep[i]
    requires forall e :: e in input ==> e.key.sn <= MAX_SEQUENCE
    requires WellBuilt(outs, builder) && Progress(keep, input, i, outs, builder)
    requires Watching(job.grandparents, job.maxOverlap, job.grandparentIndex, job.seenKey, job.overlappedBytes, input,
                      i + 1, outs, builder)
    requires Cutting(job.grandparents, job.maxOverlap, full, input, i + 1, outs, builder)
    requires forall k :: 0 <= k < |outs| ==> outs[k].number == number(k)
    ensures WellBuilt(r, open) && Progress(keep, input, i + 1, r, open)
    ensures Watching(job.grandparents, job.maxOverlap, job.grandparentIndex, job.seenKey, job.overlappedBytes, input,
                     i + 1, r, open)
    ensures Cutting(job.grandparents, job.maxOverlap, full, input, i + 1, r, open)
    ensures forall k :: 0 <= k < |r| ==> r[k].number == number(k)
  {
    hide WellBuilt, Progress, Sorted, Finished, OverlapBytes, Passed, Less, UpTo, WithinOverlap, Cutting, CountedFrom;
    r, open := outs, builder;
    if !drop {
      ghost var files, max, index, bytes := job.grandparents, job.maxOverlap, job.grandparentIndex, job.overlappedBytes;
      KeepEntry(keep, input, i, outs, builder);
      KeepBuilt(keep, input, i, outs, builder);
      WatchKept(files, max, index, bytes, input, i, outs, builder);
      open := builder + [input[i]];
      if full(open) {
        ghost var whole := open;
        r, open := FinishProgress(keep, input, i + 1, r, open, number, size);
        WatchFinished(files, max, index, true, bytes, input, i + 1, outs, whole, r);
        CutFull(files, max, full, input, i, outs, builder, r);
      } else {
        CutOpen(files, max, full, input, i, outs, builder);
      }
    } else {
      SkipEntry(keep, input, i, outs, builder);
    }
  }

  /** Closes the open output file. */
  method FinishOutput(outs: seq<File>, builder: seq<Entry>, number: nat -> nat, size: seq<Entry> -> nat,
                      ghost input: seq<Entry>)
    returns (r: seq<File>, rest: seq<Entry>)
    requires builder != [] && WellBuilt(outs, builder)
    requires forall e :: e in input ==> e.key.sn <= MAX_SEQUENCE
    requires forall e :: Written(outs, builder, e) ==> e in input
    requires forall k :: 0 <= k < |outs| ==> outs[k].number == number(k)
    ensures rest == [] && WellBuilt(r, rest) && Finished(outs, builder, r)
    ensures forall e :: Written(r, rest, e) <==> Written(outs, builder, e)
    ensures forall k :: 0 <= k < |r| ==> r[k].number == number(k)
  {
    var o := File(number(|outs|), size(builder), builder[0].key, builder[|builder| - 1].key, builder);
    forall e | e in builder ensures e.key.sn <= MAX_SEQUENCE {
      assert Written(outs, builder, e);
    }
    r := outs + [o];
    rest := [];
    forall p | p in outs ensures Less(p.largest, o.smallest) {
      assert builder[0] in builder;
    }
    forall e ensures InOutputs(r, e) <==> Written(outs, builder, e) {
      if InOutputs(outs, e) {
        var p :| p in outs && e in p.entries;
        assert p in r;
      }
      if e in builder {
        assert o in r && e in o.entries;
      }
    }
  }
}
