/** Choosing the inputs of a compaction and the level of a flush (db/version_set.cc, lines 122-157,
    491-559, 1205-1235 and 1270-1462).

    The level to compact comes from a floating-point score; here it is an arbitrary choice of the caller,
    and so is the seed file when a seek triggers the compaction. */
module InputSelection {
  import opened DbFormat
  import opened Version
  import opened Storage
  import opened Compaction

  /** A bound of a user key range; `None` stands for "before all keys" or "after all keys". */
  type Bound = Option<UserKey>

  predicate InRange(f: File, begin: Bound, end: Bound) {
    && !(begin.Some? && f.largest.user < begin.value)
    && !(end.Some? && f.smallest.user > end.value)
  }

  predicate InInterval(begin: Bound, end: Bound, k: UserKey) {
    && (begin.Some? ==> begin.value <= k)
    && (end.Some? ==> k <= end.value)
  }

  /** The interval from `b` to `e` lies in the interval from `begin` to `end`. */
  predicate Contains(begin: Bound, end: Bound, b: Bound, e: Bound) {
    && (begin.Some? ==> b.Some? && begin.value <= b.value)
    && (end.Some? ==> e.Some? && e.value <= end.value)
  }

  predicate Inside(f: File, begin: Bound, end: Bound) {
    && (begin.Some? ==> begin.value <= f.smallest.user)
    && (end.Some? ==> f.largest.user <= end.value)
  }

  /** No file sticks out of the interval. */
  ghost predicate Closed(files: seq<File>, begin: Bound, end: Bound) {
    forall f :: f in files && InRange(f, begin, end) ==> Inside(f, begin, end)
  }

  /** The files that overlap the interval, in their order. */
  function Overlapping(files: seq<File>, begin: Bound, end: Bound): (r: seq<File>)
    ensures forall f :: f in r <==> f in files && InRange(f, begin, end)
  {
    if files == [] then []
    else
      var last := files[|files| - 1];
      assert forall f :: f in files <==> f in files[..|files| - 1] || f == last;
      Overlapping(files[..|files| - 1], begin, end) + if InRange(last, begin, end) then [last] else []
  }

  function CountBelow(files: seq<File>, begin: Bound): nat {
    if files == [] || begin.None? then 0
    else (if files[0].smallest.user < begin.value then 1 else 0) + CountBelow(files[1..], begin)
  }

  function CountAbove(files: seq<File>, end: Bound): nat {
    if files == [] || end.None? then 0
    else (if files[0].largest.user > end.value then 1 else 0) + CountAbove(files[1..], end)
  }

  lemma {:induction false} CountBelowShrinks(files: seq<File>, b: Bound, c: Bound)
    requires b.Some? && c.Some? && c.value < b.value
    ensures CountBelow(files, c) <= CountBelow(files, b)
    ensures (exists f :: f in files && f.smallest.user == c.value) ==> CountBelow(files, c) < CountBelow(files, b)
  {
    if files != [] {
      CountBelowShrinks(files[1..], b, c);
    }
  }

  lemma {:induction false} CountAboveShrinks(files: seq<File>, e: Bound, c: Bound)
    requires e.Some? && c.Some? && c.value > e.value
    ensures CountAbove(files, c) <= CountAbove(files, e)
    ensures (exists f :: f in files && f.largest.user == c.value) ==> CountAbove(files, c) < CountAbove(files, e)
  {
    if files != [] {
      CountAboveShrinks(files[1..], e, c);
    }
  }

  /** Every closed interval around the given one contains the grown one. */
  ghost predicate WithinClosed(files: seq<File>, begin: Bound, end: Bound, b: Bound, e: Bound) {
    forall p, q :: Closed(files, p, q) && Contains(p, q, begin, end) ==> Contains(p, q, b, e)
  }

  /** Files cover whatever the interval gained. */
  ghost predicate GrownCovered(files: seq<File>, begin: Bound, end: Bound, b: Bound, e: Bound) {
    forall k :: InInterval(b, e, k) ==> InInterval(begin, end, k) || Covered(files, k)
  }

  predicate Ascends(files: seq<File>) {
    forall f :: f in files ==> f.smallest.user <= f.largest.user
  }

  ghost predicate HoldsRange(files: seq<File>, begin: Bound, end: Bound, held: seq<File>) {
    forall f :: f in files && InRange(f, begin, end) ==> f in held
  }

  /** Whoever takes the files of the first interval and all files that overlap a taken one, takes those of the second. */
  ghost predicate Reaches(files: seq<File>, begin: Bound, end: Bound, b: Bound, e: Bound) {
    forall held :: OverlapClosed(files, held) && HoldsRange(files, begin, end, held) ==> HoldsRange(files, b, e, held)
  }

  /** No smaller set has the files of the interval and everything that overlaps one of its own files. */
  ghost predicate LeastOver(files: seq<File>, begin: Bound, end: Bound, inputs: seq<File>) {
    forall held :: OverlapClosed(files, held) && HoldsRange(files, begin, end, held) ==>
      forall f :: f in inputs ==> f in held
  }

  /** The files of a level that overlap a range.  At level 0 the range grows until no file sticks out of
      it; the final range is the least one with that property, and all it gained is covered by files. */
  method GetOverlappingInputs(files: seq<File>, level: nat, begin: Bound, end: Bound)
    returns (inputs: seq<File>, ghost b: Bound, ghost e: Bound)
    ensures inputs == Overlapping(files, b, e)
    ensures level > 0 ==> b == begin && e == end
    ensures level > 0 ==> inputs == Overlapping(files, begin, end)
    ensures forall f :: f in files && InRange(f, begin, end) ==> f in inputs
    ensures Contains(b, e, begin, end) && (b.Some? <==> begin.Some?) && (e.Some? <==> end.Some?)
    ensures level == 0 ==> Closed(files, b, e)
    ensures WithinClosed(files, begin, end, b, e)
    ensures GrownCovered(inputs, begin, end, b, e)
    ensures Ascends(files) ==> LeastOver(files, begin, end, inputs)
  {
    hide WithinClosed, GrownCovered, Closed, CountBelow, CountAbove, Overlapping, Reaches, LeastOver, Ascends;
    inputs := [];
    var userBegin, userEnd := begin, end;
    var i := 0;
    NothingGained(files, begin, end);
    NothingOverlaps(files, begin, end);
    while i < |files|
      invariant i <= |files|
      invariant inputs == Overlapping(files[..i], userBegin, userEnd)
      invariant level > 0 ==> userBegin == begin && userEnd == end
      invariant Contains(userBegin, userEnd, begin, end)
      invariant (userBegin.Some? <==> begin.Some?) && (userEnd.Some? <==> end.Some?)
      invariant level == 0 ==> Closed(files[..i], userBegin, userEnd)
      invariant WithinClosed(files, begin, end, userBegin, userEnd)
      invariant GrownCovered(files, begin, end, userBegin, userEnd)
      invariant Ascends(files) ==> Reaches(files, begin, end, userBegin, userEnd)
      decreases CountBelow(files, userBegin) + CountAbove(files, userEnd), |files| - i
    {
      var f := files[i];
      OneMore(files, i, userBegin, userEnd);
      i := i + 1;
      if userBegin.Some? && f.largest.user < userBegin.value {
      } else if userEnd.Some? && f.smallest.user > userEnd.value {
      } else {
        inputs := inputs + [f];
        if level == 0 {
          if userBegin.Some? && f.smallest.user < userBegin.value {
            CountBelowShrinks(files, userBegin, Some(f.smallest.user));
            Widened(files, f, userBegin, userEnd, Some(f.smallest.user), userEnd, begin, end);
            userBegin := Some(f.smallest.user);
            NothingOverlaps(files, userBegin, userEnd);
            inputs := [];
            i := 0;
          } else if userEnd.Some? && f.largest.user > userEnd.value {
            CountAboveShrinks(files, userEnd, Some(f.largest.user));
            Widened(files, f, userBegin, userEnd, userBegin, Some(f.largest.user), begin, end);
            userEnd := Some(f.largest.user);
            NothingOverlaps(files, userBegin, userEnd);
            inputs := [];
            i := 0;
          }
        }
      }
    }
    assert files[..|files|] == files;
    b, e := userBegin, userEnd;
    CoveredByThem(files, begin, end, b, e);
    if Ascends(files) {
      ReachedIsLeast(files, begin, end, b, e);
    }
  }

  lemma ReachedIsLeast(files: seq<File>, begin: Bound, end: Bound, b: Bound, e: Bound)
    requires Reaches(files, begin, end, b, e)
    ensures LeastOver(files, begin, end, Overlapping(files, b, e))
  {
    hide OverlapClosed;
    forall held | OverlapClosed(files, held) && HoldsRange(files, begin, end, held)
      ensures forall f :: f in Overlapping(files, b, e) ==> f in held
    {
      assert HoldsRange(files, b, e, held);
    }
  }

  lemma NothingGained(files: seq<File>, begin: Bound, end: Bound)
    ensures WithinClosed(files, begin, end, begin, end) && GrownCovered(files, begin, end, begin, end)
    ensures Reaches(files, begin, end, begin, end)
  {
    hide OverlapClosed, HoldsRange, InRange;
  }

  lemma NothingOverlaps(files: seq<File>, begin: Bound, end: Bound)
    ensures Overlapping(files[..0], begin, end) == [] && Closed(files[..0], begin, end)
  {
  }

  lemma OneMore(files: seq<File>, i: nat, begin: Bound, end: Bound)
    requires i < |files|
    ensures files[i] in files
    ensures Overlapping(files[..i + 1], begin, end) ==
            Overlapping(files[..i], begin, end) + if InRange(files[i], begin, end) then [files[i]] else []
    ensures Closed(files[..i], begin, end) && (InRange(files[i], begin, end) ==> Inside(files[i], begin, end)) ==>
              Closed(files[..i + 1], begin, end)
  {
    var some, more := files[..i], files[..i + 1];
    assert more == some + [files[i]] && more[..|more| - 1] == some;
    hide InRange, Inside;
    if Closed(some, begin, end) && (InRange(files[i], begin, end) ==> Inside(files[i], begin, end)) {
      forall f | f in more && InRange(f, begin, end) ensures Inside(f, begin, end) {
        assert f in some || f == files[i];
      }
    }
  }

  lemma CoveredByThem(files: seq<File>, begin: Bound, end: Bound, b: Bound, e: Bound)
    requires GrownCovered(files, begin, end, b, e)
    ensures GrownCovered(Overlapping(files, b, e), begin, end, b, e)
  {
    forall k | InInterval(b, e, k) && !InInterval(begin, end, k) ensures Covered(Overlapping(files, b, e), k) {
      var z :| z in files && Spans(z, k);
      assert InRange(z, b, e);
    }
  }

  /** One widening step, by an overlapping file that sticks out. */
  lemma Widened(files: seq<File>, f: File, b: Bound, e: Bound, c: Bound, d: Bound, begin: Bound, end: Bound)
    requires f in files && InRange(f, b, e)
    requires (b.Some? && f.smallest.user < b.value && c == Some(f.smallest.user) && d == e) ||
             (e.Some? && f.largest.user > e.value && d == Some(f.largest.user) && c == b)
    requires WithinClosed(files, begin, end, b, e) && GrownCovered(files, begin, end, b, e)
    requires Contains(b, e, begin, end)
    ensures Contains(c, d, begin, end)
    ensures WithinClosed(files, begin, end, c, d) && GrownCovered(files, begin, end, c, d)
    ensures Ascends(files) && Reaches(files, begin, end, b, e) ==> Reaches(files, begin, end, c, d)
  {
    if Ascends(files) && Reaches(files, begin, end, b, e) {
      WidenedReaches(files, f, b, e, c, d, begin, end);
    }
    WidenedCovers(files, f, b, e, c, d, begin, end);
  }

  lemma WidenedReaches(files: seq<File>, f: File, b: Bound, e: Bound, c: Bound, d: Bound, begin: Bound, end: Bound)
    requires f in files && InRange(f, b, e) && Ascends(files)
    requires (b.Some? && f.smallest.user < b.value && c == Some(f.smallest.user) && d == e) ||
             (e.Some? && f.largest.user > e.value && d == Some(f.largest.user) && c == b)
    requires Reaches(files, begin, end, b, e)
    ensures Reaches(files, begin, end, c, d)
  {
    hide Ascends;
    forall held | OverlapClosed(files, held) && HoldsRange(files, begin, end, held)
      ensures HoldsRange(files, c, d, held)
    {
      assert HoldsRange(files, b, e, held);
      forall g | g in files && InRange(g, c, d) ensures g in held {
        if !InRange(g, b, e) {
          TouchesWidened(files, f, g, b, e, c, d);
        }
      }
    }
  }

  /** What the wider range gained overlaps the file that stuck out. */
  lemma TouchesWidened(files: seq<File>, f: File, g: File, b: Bound, e: Bound, c: Bound, d: Bound)
    requires Ascends(files) && f in files && g in files && InRange(f, b, e) && InRange(g, c, d) && !InRange(g, b, e)
    requires (b.Some? && f.smallest.user < b.value && c == Some(f.smallest.user) && d == e) ||
             (e.Some? && f.largest.user > e.value && d == Some(f.largest.user) && c == b)
    ensures UserOverlap(g, f)
  {
  }

  lemma WidenedCovers(files: seq<File>, f: File, b: Bound, e: Bound, c: Bound, d: Bound, begin: Bound, end: Bound)
    requires f in files && InRange(f, b, e)
    requires (b.Some? && f.smallest.user < b.value && c == Some(f.smallest.user) && d == e) ||
             (e.Some? && f.largest.user > e.value && d == Some(f.largest.user) && c == b)
    requires WithinClosed(files, begin, end, b, e) && GrownCovered(files, begin, end, b, e)
    requires Contains(b, e, begin, end)
    ensures Contains(c, d, begin, end)
    ensures WithinClosed(files, begin, end, c, d) && GrownCovered(files, begin, end, c, d)
  {
    forall p, q | Closed(files, p, q) && Contains(p, q, begin, end) ensures Contains(p, q, c, d) {
      assert InRange(f, p, q);
    }
    forall k | InInterval(c, d, k) ensures InInterval(begin, end, k) || Covered(files, k) {
      assert InInterval(b, e, k) || Spans(f, k);
    }
  }

  // ---------- ranges and boundary files ----------

  ghost predicate IsLargest(files: seq<File>, k: InternalKey) {
    && (exists f :: f in files && f.largest == k)
    && (forall f :: f in files ==> !Less(k, f.largest))
  }

  ghost predicate IsSmallest(files: seq<File>, k: InternalKey) {
    && (exists f :: f in files && f.smallest == k)
    && (forall f :: f in files ==> !Less(f.smallest, k))
  }

  method GetRange(files: seq<File>) returns (smallest: InternalKey, largest: InternalKey)
    requires files != []
    ensures IsSmallest(files, smallest) && IsLargest(files, largest)
  {
    hide IsSmallest, IsLargest, Less;
    smallest, largest := files[0].smallest, files[0].largest;
    FirstSmallest(files);
    FirstLargest(files);
    for i := 1 to |files|
      invariant IsSmallest(files[..i], smallest) && IsLargest(files[..i], largest)
    {
      var f := files[i];
      NextSmallest(files, i, smallest);
      NextLargest(files, i, largest);
      if Less(f.smallest, smallest) {
        smallest := f.smallest;
      }
      if Less(largest, f.largest) {
        largest := f.largest;
      }
    }
    assert files[..|files|] == files;
  }

  /** `h` starts after `k`, with the same user key. */
  predicate Boundary(k: InternalKey, h: File) {
    Less(k, h.smallest) && k.user == h.smallest.user
  }

  method FindSmallestBoundaryFile(levelFiles: seq<File>, largestKey: InternalKey) returns (r: Option<File>)
    ensures r.None? ==> forall h :: h in levelFiles ==> !Boundary(largestKey, h)
    ensures r.Some? ==> r.value in levelFiles && Boundary(largestKey, r.value)
    ensures r.Some? ==> forall h :: h in levelFiles && Boundary(largestKey, h) ==>
      !Less(h.smallest, r.value.smallest)
  {
    r := None;
    for i := 0 to |levelFiles|
      invariant r.None? ==> forall h :: h in levelFiles[..i] ==> !Boundary(largestKey, h)
      invariant r.Some? ==> r.value in levelFiles && Boundary(largestKey, r.value)
      invariant r.Some? ==> forall h :: h in levelFiles[..i] && Boundary(largestKey, h) ==>
        !Less(h.smallest, r.value.smallest)
    {
      var f := levelFiles[i];
      assert levelFiles[..i + 1] == levelFiles[..i] + [f];
      if Boundary(largestKey, f) && (r.None? || Less(f.smallest, r.value.smallest)) {
        r := Some(f);
      }
    }
    assert levelFiles[..|levelFiles|] == levelFiles;
  }

  function CountAfter(files: seq<File>, k: InternalKey): nat {
    if files == [] then 0
    else (if Less(k, files[0].smallest) then 1 else 0) + CountAfter(files[1..], k)
  }

  lemma {:induction false} CountAfterShrinks(files: seq<File>, k: InternalKey, next: InternalKey)
    requires Less(k, next)
    ensures CountAfter(files, next) <= CountAfter(files, k)
    ensures (exists f :: f in files && Less(k, f.smallest) && !Less(next, f.smallest)) ==>
              CountAfter(files, next) < CountAfter(files, k)
  {
    if files != [] {
      CountAfterShrinks(files[1..], k, next);
    }
  }

  /** Only the file with the largest key can have a boundary file outside `chosen`. */
  ghost predicate Trailing(levelFiles: seq<File>, chosen: seq<File>, largest: InternalKey) {
    forall f, h :: f in chosen && h in levelFiles && h !in chosen && Boundary(f.largest, h) ==> Boundary(largest, h)
  }

  ghost predicate NoTail(levelFiles: seq<File>, chosen: seq<File>) {
    forall f, h :: f in chosen && h in levelFiles && h !in chosen ==> !Boundary(f.largest, h)
  }

  /** `None` when there are no files. */
  method FindLargestKey(files: seq<File>) returns (largest: Option<InternalKey>)
    ensures largest.None? <==> files == []
    ensures largest.Some? ==> IsLargest(files, largest.value)
  {
    hide IsLargest, Less;
    if files == [] {
      return None;
    }
    var key := files[0].largest;
    FirstLargest(files);
    for i := 1 to |files|
      invariant IsLargest(files[..i], key)
    {
      NextLargest(files, i, key);
      if Less(key, files[i].largest) {
        key := files[i].largest;
      }
    }
    assert files[..|files|] == files;
    largest := Some(key);
  }

  lemma FirstLargest(files: seq<File>)
    requires files != []
    ensures IsLargest(files[..1], files[0].largest)
  {
    assert files[0] in files[..1];
  }

  lemma NextLargest(files: seq<File>, i: nat, k: InternalKey)
    requires i < |files| && IsLargest(files[..i], k)
    ensures IsLargest(files[..i + 1], if Less(k, files[i].largest) then files[i].largest else k)
  {
    assert files[..i + 1] == files[..i] + [files[i]];
    assert files[i] in files[..i + 1];
    assert forall g :: g in files[..i] ==> g in files[..i + 1];
  }

  lemma NextSmallest(files: seq<File>, i: nat, k: InternalKey)
    requires i < |files| && IsSmallest(files[..i], k)
    ensures IsSmallest(files[..i + 1], if Less(files[i].smallest, k) then files[i].smallest else k)
  {
    assert files[..i + 1] == files[..i] + [files[i]];
    assert files[i] in files[..i + 1];
    assert forall g :: g in files[..i] ==> g in files[..i + 1];
  }

  lemma FirstSmallest(files: seq<File>)
    requires files != []
    ensures IsSmallest(files[..1], files[0].smallest)
  {
    assert files[0] in files[..1];
  }

  ghost predicate TrailingFiles(levelFiles: seq<File>, chosen: seq<File>) {
    forall k :: IsLargest(chosen, k) ==> Trailing(levelFiles, chosen, k)
  }

  /** No file of the level continues the largest user key of `chosen`. */
  ghost predicate NotContinued(levelFiles: seq<File>, chosen: seq<File>) {
    forall k, h :: IsLargest(chosen, k) && h in levelFiles ==> !Boundary(k, h)
  }

  predicate NoDuplicates(files: seq<File>) {
    forall i, j :: 0 <= i < j < |files| ==> files[i] != files[j]
  }

  lemma LargestUnique(files: seq<File>, k: InternalKey, levelFiles: seq<File>)
    requires IsLargest(files, k) && forall h :: h in levelFiles ==> !Boundary(k, h)
    ensures NotContinued(levelFiles, files)
  {
    forall j | IsLargest(files, j) ensures j.user == k.user && Tag(j) == Tag(k) {
    }
  }

  /** `b` is the first file that continues the largest user key of the files so far. */
  ghost predicate NextBoundary(levelFiles: seq<File>, soFar: seq<File>, b: File) {
    exists k :: IsLargest(soFar, k) && b in levelFiles && Boundary(k, b) &&
      forall h :: h in levelFiles && Boundary(k, h) ==> !Less(h.smallest, b.smallest)
  }

  /** `r` is `chosen` and then its boundary files, one after the other. */
  ghost predicate ByBoundary(levelFiles: seq<File>, chosen: seq<File>, r: seq<File>) {
    && chosen <= r
    && forall n :: |chosen| <= n < |r| ==> NextBoundary(levelFiles, r[..n], r[n])
  }

  lemma ByBoundaryMore(levelFiles: seq<File>, chosen: seq<File>, r: seq<File>, k: InternalKey, b: File)
    requires ByBoundary(levelFiles, chosen, r) && IsLargest(r, k) && b in levelFiles && Boundary(k, b)
    requires forall h :: h in levelFiles && Boundary(k, h) ==> !Less(h.smallest, b.smallest)
    ensures ByBoundary(levelFiles, chosen, r + [b])
  {
    hide IsLargest, Less;
    assert (r + [b])[..|r|] == r;
    assert NextBoundary(levelFiles, r, b);
    hide NextBoundary;
    forall n | |chosen| <= n < |r| + 1 ensures NextBoundary(levelFiles, (r + [b])[..n], (r + [b])[n]) {
      if n < |r| {
        assert (r + [b])[..n] == r[..n];
      }
    }
  }

  /** Extends the chosen files of a level until no file of the level continues their largest user key.
      `others` are files of the next level that will be merged with them. */
  method AddBoundaryInputs(levelFiles: seq<File>, chosen: seq<File>, ghost others: seq<File>)
    returns (r: seq<File>)
    requires (forall f :: f in levelFiles ==> FileOk(f)) && forall f :: f in chosen ==> f in levelFiles
    ensures chosen <= r && forall f :: f in r ==> f in levelFiles
    ensures ByBoundary(levelFiles, chosen, r) && NotContinued(levelFiles, r)
    ensures NoDuplicates(chosen) ==> NoDuplicates(r)
    ensures NotContinued(levelFiles, chosen) ==> r == chosen
    ensures Disjoint(levelFiles) && TrailingFiles(levelFiles, chosen) ==> NoTail(levelFiles, r)
    ensures GapFree(chosen + others) ==> GapFree(r + others)
  {
    r := chosen;
    var first := FindLargestKey(chosen);
    if first.None? {
      return;
    }
    var largestKey := first.value;
    ghost var notContinued := NotContinued(levelFiles, chosen);
    ghost var trailing := Disjoint(levelFiles) && TrailingFiles(levelFiles, chosen);
    ghost var gapFree := GapFree(chosen + others);
    var continueSearching := true;
    while continueSearching
      invariant chosen <= r && forall f :: f in r ==> f in levelFiles
      invariant ByBoundary(levelFiles, chosen, r) && IsLargest(r, largestKey)
      invariant notContinued ==> r == chosen && forall h :: h in levelFiles ==> !Boundary(largestKey, h)
      invariant NoDuplicates(chosen) ==> NoDuplicates(r)
      invariant trailing ==> Disjoint(levelFiles) && Trailing(levelFiles, r, largestKey)
      invariant gapFree ==> GapFree(r + others)
      invariant !continueSearching ==> forall h :: h in levelFiles ==> !Boundary(largestKey, h)
      decreases continueSearching, CountAfter(levelFiles, largestKey)
    {
      var next := FindSmallestBoundaryFile(levelFiles, largestKey);
      if next.Some? {
        var b := next.value;
        BoundaryStep(levelFiles, r, largestKey, b, others);
        ByBoundaryMore(levelFiles, chosen, r, largestKey, b);
        r := r + [b];
        largestKey := b.largest;
      } else {
        continueSearching := false;
      }
    }
    LargestUnique(r, largestKey, levelFiles);
  }

  lemma BoundaryStep(levelFiles: seq<File>, r: seq<File>, largest: InternalKey, b: File, others: seq<File>)
    requires (forall f :: f in levelFiles ==> FileOk(f)) && forall f :: f in r ==> f in levelFiles
    requires IsLargest(r, largest) && b in levelFiles && Boundary(largest, b)
    requires forall h :: h in levelFiles && Boundary(largest, h) ==> !Less(h.smallest, b.smallest)
    ensures IsLargest(r + [b], b.largest) && b !in r && Less(largest, b.largest) && !Less(b.largest, b.smallest)
    ensures Disjoint(levelFiles) && Trailing(levelFiles, r, largest) ==> Trailing(levelFiles, r + [b], b.largest)
    ensures GapFree(r + others) ==> GapFree(r + [b] + others)
    ensures NoDuplicates(r) ==> NoDuplicates(r + [b])
    ensures CountAfter(levelFiles, b.largest) < CountAfter(levelFiles, largest)
  {
    hide Trailing, GapFree, Disjoint, IsLargest, CountAfter, NoDuplicates;
    BoundaryLargest(levelFiles, r, largest, b);
    CountAfterShrinks(levelFiles, largest, b.largest);
    if Disjoint(levelFiles) && Trailing(levelFiles, r, largest) {
      BoundaryTrailing(levelFiles, r, largest, b);
    }
    if GapFree(r + others) {
      BoundaryGapFree(r, largest, b, others);
    }
    if NoDuplicates(r) {
      OneMoreDistinct(r, b);
    }
  }

  lemma BoundaryLargest(levelFiles: seq<File>, r: seq<File>, largest: InternalKey, b: File)
    requires (forall f :: f in levelFiles ==> FileOk(f)) && forall f :: f in r ==> f in levelFiles
    requires IsLargest(r, largest) && b in levelFiles && Boundary(largest, b)
    ensures IsLargest(r + [b], b.largest) && b !in r && Less(largest, b.largest) && !Less(b.largest, b.smallest)
    ensures b.smallest.user <= b.largest.user && forall f :: f in r ==> f.smallest.user <= f.largest.user
  {
    hide FileOk;
    RangeAscends(b);
    forall f | f in r ensures !Less(f.largest, f.smallest) && f.smallest.user <= f.largest.user {
      RangeAscends(f);
    }
    assert b in r + [b];
  }

  lemma BoundaryTrailing(levelFiles: seq<File>, r: seq<File>, largest: InternalKey, b: File)
    requires (forall f :: f in levelFiles ==> FileOk(f)) && b in levelFiles && Boundary(largest, b)
    requires forall h :: h in levelFiles && Boundary(largest, h) ==> !Less(h.smallest, b.smallest)
    requires Disjoint(levelFiles) && Trailing(levelFiles, r, largest)
    ensures Trailing(levelFiles, r + [b], b.largest)
  {
    hide FileOk;
    RangeAscends(b);
    forall f, h | f in r && h in levelFiles && h !in r + [b] && Boundary(f.largest, h)
      ensures Boundary(b.largest, h)
    {
      assert Boundary(largest, h);
      DisjointIsApart(levelFiles, b, h);
      RangeAscends(h);
    }
  }

  lemma OneMoreDistinct(files: seq<File>, b: File)
    requires NoDuplicates(files) && b !in files
    ensures NoDuplicates(files + [b])
  {
  }

  lemma BoundaryGapFree(r: seq<File>, largest: InternalKey, b: File, others: seq<File>)
    requires IsLargest(r, largest) && Boundary(largest, b) && GapFree(r + others)
    requires b.smallest.user <= b.largest.user && forall f :: f in r ==> f.smallest.user <= f.largest.user
    ensures GapFree(r + [b] + others)
  {
    var f :| f in r && f.largest == largest;
    assert f in r + others;
    forall k | InHull(r + [b] + others, k) ensures Covered(r + [b] + others, k) {
      var x, y :| x in r + [b] + others && y in r + [b] + others && x.smallest.user <= k && k <= y.largest.user;
      if Spans(b, k) {
        assert b in r + [b] + others;
      } else {
        assert InHull(r + others, k) by {
          var x' := if x == b then f else x;
          var y' := if y == b then f else y;
          assert x' in r + others && y' in r + others;
        }
        var z :| z in r + others && Spans(z, k);
        assert z in r + [b] + others;
      }
    }
  }

  // ---------- a whole set of inputs ----------

  /** At level 0 no file outside the set overlaps a file of the set. */
  ghost predicate OverlapClosed(files: seq<File>, chosen: seq<File>) {
    forall h, f :: h in files && h !in chosen && f in chosen ==> !UserOverlap(h, f)
  }

  ghost predicate HullOverlap(files: seq<File>, g: File) {
    exists x, y :: x in files && y in files && x.smallest.user <= g.largest.user && g.smallest.user <= y.largest.user
  }

  /** The result of `SetupOtherInputs`. */
  ghost predicate Picked(levels: Levels, c: Inputs) {
    && c.level + 1 < |levels|
    && c.in0 != []
    && (forall f :: f in c.in0 ==> f in levels[c.level])
    && (c.level == 0 ==> OverlapClosed(levels[0], c.in0))
    && (c.level > 0 ==> NoTail(levels[c.level], c.in0))
    && (forall g :: g in c.in1 <==> g in levels[c.level + 1] && HullOverlap(c.in0, g))
    && GapFree(All(c))
  }

  /** Hypothesis: no file of the output level that stays shares a boundary user key with an input of that
      level.  `SetupOtherInputs` extends only the inputs of `level` by boundary files. */
  ghost predicate BoundaryClosed(levels: Levels, c: Inputs)
    requires c.level + 1 < |levels|
  {
    forall g, x :: g in levels[c.level + 1] && g !in c.in1 && x in c.in1 ==>
      g.largest.user != x.smallest.user && x.largest.user != g.smallest.user
  }

  lemma BeforeIsNewer(files: seq<File>, chosen: seq<File>, h: File, f: File)
    requires Disjoint(files) && NoTail(files, chosen) && forall g :: g in files ==> FileOk(g)
    requires forall i, j :: 0 <= i < j < |files| ==> files[i] != files[j]
    requires f in chosen && f in files && h in files && h !in chosen
    requires forall a, b :: a in h.entries && b in f.entries && a.key.user == b.key.user ==> a.key.sn != b.key.sn
    ensures Newer(h, f)
  {
    DisjointIsApart(files, h, f);
    forall a, b | a in h.entries && b in f.entries && a.key.user == b.key.user
      ensures a.key.sn > b.key.sn
    {
      WithinRange(h, a);
      WithinRange(f, b);
      assert !Boundary(f.largest, h);
      assert Less(h.largest, f.smallest);
    }
  }

  /** Entries of one user key in different files have different sequence numbers. */
  ghost predicate DistinctWrites(levels: Levels) {
    forall l, f, g, a, b :: 0 <= l < |levels| && f in levels[l] && g in levels[l] && f != g ==>
      (a in f.entries && b in g.entries && a.key.user == b.key.user ==> a.key.sn != b.key.sn)
  }

  lemma StoredOnce(levels: Levels, h: seq<Entry>, floor: nat)
    requires Stores(levels, h, floor)
    ensures DistinctWrites(levels)
  {
    hide Stores, Newer;
    forall l, f, g, a, b | 0 <= l < |levels| && f in levels[l] && g in levels[l] && f != g &&
        a in f.entries && b in g.entries && a.key.user == b.key.user
      ensures a.key.sn != b.key.sn
    {
      StoredApart(levels, h, floor, l, f, g, a, b);
    }
  }

  lemma StoredApart(levels: Levels, h: seq<Entry>, floor: nat, l: nat, f: File, g: File, a: Entry, b: Entry)
    requires Stores(levels, h, floor) && l < |levels| && f in levels[l] && g in levels[l] && f != g
    requires a in f.entries && b in g.entries && a.key.user == b.key.user
    ensures a.key.sn != b.key.sn
  {
    hide FileOk, Agree, Disjoint, BySmallest;
    assert Has(levels, a) && Has(levels, b);
    if l > 0 {
      ApartEntries(levels[l], f, g, a, b);
    } else {
      assert Newer(f, g) || Newer(g, f);
    }
  }

  lemma ApartEntries(files: seq<File>, f: File, g: File, a: Entry, b: Entry)
    requires Disjoint(files) && f in files && g in files && f != g && FileOk(f) && FileOk(g)
    requires a in f.entries && b in g.entries
    ensures a != b
  {
    hide FileOk, Disjoint;
    DisjointIsApart(files, f, g);
    WithinRange(f, a);
    WithinRange(g, b);
  }

  /** What stays in the input level is newer than every input of it. */
  lemma LeftBehindIsNewer(levels: Levels, c: Inputs, h: File, f: File)
    requires Ordered(levels) && DistinctWrites(levels) && Picked(levels, c)
    requires h in levels[c.level] && h !in c.in0 && f in c.in0
    ensures Newer(h, f)
  {
    hide ShallowIsNewer, DistinctNumbers, Level0ByAge, FileOk, GapFree, HullOverlap;
    if c.level == 0 {
      NoOverlap(h, f);
    } else {
      var files := levels[c.level];
      assert BySmallest(files);
      assert forall i, j :: 0 <= i < j < |files| ==> FileLess(files[i], files[j]);
      assert f in files && f != h;
      BeforeIsNewer(files, c.in0, h, f);
    }
  }

  /** What stays in the output level does not overlap any input. */
  lemma LeftBehindIsApart(levels: Levels, c: Inputs, g: File, x: File)
    requires Ordered(levels) && Picked(levels, c) && BoundaryClosed(levels, c)
    requires g in levels[c.level + 1] && g !in c.in1 && x in All(c)
    ensures !UserOverlap(g, x)
  {
    hide ShallowIsNewer, DistinctNumbers, Level0ByAge, GapFree, NoTail, OverlapClosed;
    if x in c.in0 {
      assert !HullOverlap(c.in0, g);
    } else {
      DisjointIsApart(levels[c.level + 1], g, x);
      RangeAscends(g);
      RangeAscends(x);
    }
  }

  lemma PickedIsReady(levels: Levels, c: Inputs)
    requires Ordered(levels) && DistinctWrites(levels) && Picked(levels, c) && BoundaryClosed(levels, c)
    ensures Ready(levels, levels, c)
  {
    hide FilesOk, DirectoryOrder, DistinctNumbers, DeeperDisjoint, Level0ByAge, ShallowIsNewer, DistinctWrites,
         Newer, UserOverlap, GapFree, NoTail, OverlapClosed, HullOverlap, BoundaryClosed;
    forall h, f | h in levels[c.level] && h !in c.in0 && f in c.in0 ensures Newer(h, f) {
      LeftBehindIsNewer(levels, c, h, f);
    }
    forall g, x | g in levels[c.level + 1] && g !in c.in1 && x in All(c) ensures !UserOverlap(g, x) {
      LeftBehindIsApart(levels, c, g, x);
    }
  }

  /** Files that all touch an interval without gaps have a hull without gaps. */
  lemma TouchingGapFree(files: seq<File>, begin: UserKey, end: UserKey)
    requires forall f :: f in files ==> InRange(f, Some(begin), Some(end))
    requires forall k :: begin <= k <= end ==> Covered(files, k)
    ensures GapFree(files)
  {
    forall k | InHull(files, k) ensures Covered(files, k) {
      var x, y :| x in files && y in files && x.smallest.user <= k && k <= y.largest.user;
      assert begin <= k <= end || Spans(x, k) || Spans(y, k);
    }
  }

  lemma OverlappingIsHull(files: seq<File>, s: InternalKey, l: InternalKey, others: seq<File>)
    requires IsSmallest(files, s) && IsLargest(files, l)
    ensures forall g :: g in Overlapping(others, Some(s.user), Some(l.user)) <==> g in others && HullOverlap(files, g)
  {
  }

  /** The smaller range finds fewer files, and if it finds as many, the same ones. */
  lemma {:induction false} SameCountSameFiles(files: seq<File>, b: Bound, e: Bound, p: Bound, q: Bound)
    requires Contains(p, q, b, e)
    ensures |Overlapping(files, b, e)| <= |Overlapping(files, p, q)|
    ensures |Overlapping(files, b, e)| == |Overlapping(files, p, q)| ==>
      Overlapping(files, b, e) == Overlapping(files, p, q)
  {
    if files != [] {
      SameCountSameFiles(files[..|files| - 1], b, e, p, q);
    }
  }

  function TotalFileSize(files: seq<File>): nat {
    if files == [] then 0 else files[0].size + TotalFileSize(files[1..])
  }

  /** The part of `Ordered` that input selection relies on. */
  ghost predicate Layered(levels: Levels) {
    |levels| == NUM_LEVELS && FilesOk(levels) && DeeperDisjoint(levels)
  }

  /** Leaving the rest of the level behind is safe. */
  ghost predicate Complete(levels: Levels, level: nat, chosen: seq<File>)
    requires level < |levels|
  {
    && (forall f :: f in chosen ==> f in levels[level])
    && (level == 0 ==> OverlapClosed(levels[0], chosen))
    && (level > 0 ==> NoTail(levels[level], chosen))
  }

  /** A set to which only boundary files have to be added. */
  ghost predicate Growable(levels: Levels, level: nat, chosen: seq<File>)
    requires level < |levels|
  {
    && chosen != []
    && (forall f :: f in chosen ==> f in levels[level])
    && (level == 0 ==> OverlapClosed(levels[0], chosen))
    && (level > 0 ==> TrailingFiles(levels[level], chosen))
  }

  /** `r` is `chosen` with exactly its boundary files. */
  ghost predicate Extended(levels: Levels, level: nat, chosen: seq<File>, r: seq<File>)
    requires level < |levels|
  {
    ByBoundary(levels[level], chosen, r) && NotContinued(levels[level], r)
  }

  /** The files of a level that overlap the hull of the inputs, in their order. */
  ghost predicate IsHullOverlap(files: seq<File>, inputs: seq<File>, r: seq<File>) {
    exists s, l :: IsSmallest(inputs, s) && IsLargest(inputs, l) && r == Overlapping(files, Some(s.user), Some(l.user))
  }

  /** The files that the growth starts from: those overlapping the hull of the whole compaction, and at level 0 whatever
      overlaps one of these, but no more. */
  ghost predicate Touched(levels: Levels, c: Inputs, touched: seq<File>)
    requires c.level < |levels|
  {
    var files := levels[c.level];
    if c.level > 0 then IsHullOverlap(files, All(c), touched)
    else
      && OverlapClosed(files, touched)
      && (exists b, e :: touched == Overlapping(files, b, e))
      && (forall f :: f in files && HullOverlap(All(c), f) ==> f in touched)
      && (forall held :: OverlapClosed(files, held) && (forall f :: f in files && HullOverlap(All(c), f) ==> f in held) ==>
            forall f :: f in touched ==> f in held)
  }

  ghost predicate Growth(levels: Levels, c: Inputs, grown: seq<File>)
    requires c.level < |levels|
  {
    exists touched :: Touched(levels, c, touched) && Extended(levels, c.level, touched, grown)
  }

  /** The growth adds files, keeps below the limit, and needs no more files of the next level. */
  ghost predicate Accepts(levels: Levels, c: Inputs, grown: seq<File>, expandedLimit: nat)
    requires c.level + 1 < |levels|
  {
    && |grown| > |c.in0|
    && TotalFileSize(c.in1) + TotalFileSize(grown) < expandedLimit
    && forall g :: g in levels[c.level + 1] && HullOverlap(grown, g) ==> g in c.in1
  }

  ghost predicate Expanded(levels: Levels, c: Inputs, expandedLimit: nat, in0: seq<File>)
    requires c.level + 1 < |levels|
  {
    exists grown :: Growth(levels, c, grown) && in0 == if Accepts(levels, c, grown, expandedLimit) then grown else c.in0
  }

  /** What `SetupOtherInputs` makes of the chosen files, all of it. */
  ghost predicate SetUpFrom(levels: Levels, chosen: seq<File>, expandedLimit: nat, c: Inputs, in0: seq<File>)
    requires c.level + 1 < |levels|
  {
    && Extended(levels, c.level, chosen, in0)
    && IsHullOverlap(levels[c.level + 1], in0, c.in1)
    && if c.in1 == [] then c.in0 == in0 else Expanded(levels, Inputs(c.level, in0, c.in1), expandedLimit, c.in0)
  }

  ghost predicate SetUp(levels: Levels, chosen: seq<File>, expandedLimit: nat, c: Inputs)
    requires c.level + 1 < |levels|
  {
    exists in0 :: SetUpFrom(levels, chosen, expandedLimit, c, in0)
  }

  /** The first step: boundary files of the level. */
  method CompleteInputs(levels: Levels, level: nat, chosen: seq<File>, ghost others: seq<File>) returns (r: seq<File>)
    requires Layered(levels) && level < NUM_LEVELS
    requires Growable(levels, level, chosen) && GapFree(chosen + others)
    ensures chosen <= r && Complete(levels, level, r) && GapFree(r + others)
    ensures Extended(levels, level, chosen, r)
  {
    if level == 0 {
      ClosedNotContinued(levels, chosen);
    }
    r := AddBoundaryInputs(levels[level], chosen, others);
  }

  lemma ClosedNotContinued(levels: Levels, chosen: seq<File>)
    requires Layered(levels) && Growable(levels, 0, chosen)
    ensures NotContinued(levels[0], chosen)
  {
    forall k, h | IsLargest(chosen, k) && h in levels[0] ensures !Boundary(k, h) {
      var f :| f in chosen && f.largest == k;
      RangeAscends(h);
      RangeAscends(f);
    }
  }

  /** The second step: every file of the next level that overlaps the hull. */
  method NextLevelInputs(levels: Levels, level: nat, in0: seq<File>)
    returns (in1: seq<File>, smallest: InternalKey, largest: InternalKey)
    requires level + 1 < |levels| && in0 != []
    ensures IsSmallest(in0, smallest) && IsLargest(in0, largest)
    ensures in1 == Overlapping(levels[level + 1], Some(smallest.user), Some(largest.user))
    ensures IsHullOverlap(levels[level + 1], in0, in1)
  {
    hide Overlapping, IsSmallest, IsLargest;
    smallest, largest := GetRange(in0);
    ghost var b: Bound, e: Bound;
    in1, b, e := GetOverlappingInputs(levels[level + 1], level + 1, Some(smallest.user), Some(largest.user));
  }

  /** Adds the files of the next level, and grows the files of `level` if that costs nothing there. */
  method SetupOtherInputs(levels: Levels, level: nat, chosen: seq<File>, expandedLimit: nat)
    returns (c: Inputs, pointer: InternalKey, grandparents: seq<File>)
    requires Layered(levels) && level + 1 < NUM_LEVELS && Growable(levels, level, chosen) && GapFree(chosen)
    ensures c.level == level && (forall f :: f in chosen ==> f in c.in0) && Picked(levels, c)
    ensures SetUp(levels, chosen, expandedLimit, c)
    ensures IsLargest(c.in0, pointer)
    ensures if level + 2 < NUM_LEVELS then IsHullOverlap(levels[level + 2], All(c), grandparents) else grandparents == []
  {
    hide GapFree, Complete, Overlapping, IsSmallest, IsLargest, OverlapClosed, NoTail, HullOverlap, Picked, Growable,
         Extended, IsHullOverlap, Expanded, Layered;
    assert chosen + [] == chosen;
    LevelsCount(levels);
    var in0 := CompleteInputs(levels, level, chosen, []);
    assert in0 + [] == in0;
    GrowableSome(levels, level, chosen, in0);
    var in1, smallest, largest := NextLevelInputs(levels, level, in0);
    c := Inputs(level, in0, in1);
    SetupGapFree(levels, c, smallest, largest);
    SetupPicked(levels, c, smallest, largest);
    if in1 != [] {
      c := Expand(levels, c, expandedLimit, smallest, largest);
    }
    assert SetUpFrom(levels, chosen, expandedLimit, c, in0);
    PickedLevel(levels, c);
    var start, limit := GetRange(All(c));
    grandparents := [];
    if level + 2 < NUM_LEVELS {
      ghost var b: Bound, e: Bound;
      grandparents, b, e := GetOverlappingInputs(levels[level + 2], level + 2, Some(start.user), Some(limit.user));
      HullOverlapIs(levels[level + 2], All(c), start, limit);
    }
    var key := FindLargestKey(c.in0);
    pointer := key.value;
  }

  lemma LevelsCount(levels: Levels)
    requires Layered(levels)
    ensures |levels| == NUM_LEVELS
  {
  }

  lemma GrowableSome(levels: Levels, level: nat, chosen: seq<File>, r: seq<File>)
    requires level < |levels| && Growable(levels, level, chosen) && chosen <= r
    ensures r != [] && forall f :: f in chosen ==> f in r
  {
  }

  lemma HullOverlapIs(files: seq<File>, inputs: seq<File>, s: InternalKey, l: InternalKey)
    requires IsSmallest(inputs, s) && IsLargest(inputs, l)
    ensures IsHullOverlap(files, inputs, Overlapping(files, Some(s.user), Some(l.user)))
  {
  }

  /** Grows the inputs of `level` to everything that overlaps the whole compaction, unless that adds files
      of the next level or makes the compaction too big. */
  method Expand(levels: Levels, c: Inputs, expandedLimit: nat, smallest: InternalKey, largest: InternalKey)
    returns (r: Inputs)
    requires Layered(levels) && Picked(levels, c)
    requires IsSmallest(c.in0, smallest) && IsLargest(c.in0, largest)
    requires c.in1 == Overlapping(levels[c.level + 1], Some(smallest.user), Some(largest.user))
    ensures r.level == c.level && (forall f :: f in c.in0 ==> f in r.in0) && r.in1 == c.in1 && Picked(levels, r)
    ensures c.level + 1 < |levels| && Expanded(levels, c, expandedLimit, r.in0)
  {
    hide Layered, Growable, GapFree, Complete, Overlapping, IsSmallest, IsLargest, OverlapClosed, NoTail, HullOverlap,
         Picked, TotalFileSize, Touched, Extended, Accepts;
    PickedLevel(levels, c);
    r := c;
    var touched := TouchedInputs(levels, c);
    var expanded0 := CompleteInputs(levels, c.level, touched, c.in1);
    assert forall f :: f in c.in0 ==> f in expanded0;
    assert Growth(levels, c, expanded0);
    hide Growth;
    if |expanded0| > |c.in0| && TotalFileSize(c.in1) + TotalFileSize(expanded0) < expandedLimit {
      var expanded1, newStart, newLimit := NextLevelInputs(levels, c.level, expanded0);
      AcceptsIs(levels, c, expanded0, expanded1, expandedLimit, smallest, largest, newStart, newLimit);
      if |expanded1| == |c.in1| {
        GrownPicked(levels, c, expanded0, expanded1, smallest, largest, newStart, newLimit);
        r := Inputs(c.level, expanded0, expanded1);
      }
    } else {
      NotAccepted(levels, c, expanded0, expandedLimit);
    }
  }

  lemma NotAccepted(levels: Levels, c: Inputs, grown: seq<File>, expandedLimit: nat)
    requires c.level + 1 < |levels|
    requires |grown| <= |c.in0| || TotalFileSize(c.in1) + TotalFileSize(grown) >= expandedLimit
    ensures !Accepts(levels, c, grown, expandedLimit)
  {
  }

  /** As many files of the next level means no other ones. */
  lemma AcceptsIs(levels: Levels, c: Inputs, grown: seq<File>, in1: seq<File>, expandedLimit: nat, s: InternalKey,
                  l: InternalKey, s': InternalKey, l': InternalKey)
    requires c.level + 1 < |levels| && IsSmallest(c.in0, s) && IsLargest(c.in0, l)
    requires c.in1 == Overlapping(levels[c.level + 1], Some(s.user), Some(l.user))
    requires forall f :: f in c.in0 ==> f in grown
    requires IsSmallest(grown, s') && IsLargest(grown, l')
    requires in1 == Overlapping(levels[c.level + 1], Some(s'.user), Some(l'.user))
    requires |grown| > |c.in0| && TotalFileSize(c.in1) + TotalFileSize(grown) < expandedLimit
    ensures Accepts(levels, c, grown, expandedLimit) <==> |in1| == |c.in1|
  {
    hide Overlapping, IsSmallest, IsLargest, TotalFileSize, HullOverlap;
    var files := levels[c.level + 1];
    RangeGrows(c.in0, grown, s, l, s', l');
    SameCountSameFiles(files, Some(s.user), Some(l.user), Some(s'.user), Some(l'.user));
    OverlappingIsHull(grown, s', l', files);
    if Accepts(levels, c, grown, expandedLimit) {
      NoOtherSameCount(files, Some(s.user), Some(l.user), Some(s'.user), Some(l'.user));
    }
  }

  lemma {:induction false} NoOtherSameCount(files: seq<File>, b: Bound, e: Bound, p: Bound, q: Bound)
    requires Contains(p, q, b, e)
    requires forall f :: f in Overlapping(files, p, q) ==> f in Overlapping(files, b, e)
    ensures |Overlapping(files, b, e)| == |Overlapping(files, p, q)|
  {
    if files != [] {
      var front, last := files[..|files| - 1], files[|files| - 1];
      forall f | f in Overlapping(front, p, q) ensures f in Overlapping(front, b, e) {
        assert f in front && f in files && f in Overlapping(files, p, q);
      }
      NoOtherSameCount(front, b, e, p, q);
      assert last in files;
      assert InRange(last, p, q) ==> last in Overlapping(files, p, q);
    }
  }

  lemma PickedLevel(levels: Levels, c: Inputs)
    requires Layered(levels) && Picked(levels, c)
    ensures |levels| == NUM_LEVELS && c.level + 1 < |levels| && c.in0 != []
  {
    hide Complete, GapFree, OverlapClosed, NoTail, HullOverlap;
  }

  /** Growth that finds as many files of the next level finds the same ones. */
  lemma GrownPicked(levels: Levels, c: Inputs, expanded0: seq<File>, expanded1: seq<File>, s: InternalKey,
                    l: InternalKey, newStart: InternalKey, newLimit: InternalKey)
    requires c.level + 1 < |levels| && IsSmallest(c.in0, s) && IsLargest(c.in0, l)
    requires c.in1 == Overlapping(levels[c.level + 1], Some(s.user), Some(l.user))
    requires c.in0 != [] && forall f :: f in c.in0 ==> f in expanded0
    requires Complete(levels, c.level, expanded0) && GapFree(expanded0 + c.in1)
    requires IsSmallest(expanded0, newStart) && IsLargest(expanded0, newLimit)
    requires expanded1 == Overlapping(levels[c.level + 1], Some(newStart.user), Some(newLimit.user))
    requires |expanded1| == |c.in1|
    ensures expanded1 == c.in1 && Picked(levels, Inputs(c.level, expanded0, expanded1))
  {
    hide GapFree, Complete, Overlapping, IsSmallest, IsLargest, Picked;
    RangeGrows(c.in0, expanded0, s, l, newStart, newLimit);
    SameCountSameFiles(levels[c.level + 1], Some(s.user), Some(l.user), Some(newStart.user), Some(newLimit.user));
    assert c.in0[0] in expanded0;
    SetupPicked(levels, Inputs(c.level, expanded0, expanded1), newStart, newLimit);
  }

  /** The files of `level` that overlap the hull of the whole compaction. */
  method TouchedInputs(levels: Levels, c: Inputs) returns (touched: seq<File>)
    requires Layered(levels) && Picked(levels, c)
    ensures (forall f :: f in c.in0 ==> f in touched)
    ensures Growable(levels, c.level, touched) && GapFree(touched + c.in1)
    ensures c.level < |levels| && Touched(levels, c, touched)
  {
    hide Overlapping, IsSmallest, IsLargest, GapFree, HullOverlap, OverlapClosed, Growable, Touched, Picked, LeastOver;
    PickedLevel(levels, c);
    var allStart, allLimit := GetRange(All(c));
    ghost var b: Bound, e: Bound;
    touched, b, e := GetOverlappingInputs(levels[c.level], c.level, Some(allStart.user), Some(allLimit.user));
    ExpansionSeeded(levels, c, allStart, allLimit, touched, b, e);
    ExpansionGapFree(levels, c, allStart, allLimit, touched, b, e);
    LayeredAscends(levels, c.level);
    TouchedIs(levels, c, allStart, allLimit, touched, b, e);
  }

  lemma LayeredAscends(levels: Levels, level: nat)
    requires Layered(levels) && level < NUM_LEVELS
    ensures Ascends(levels[level])
  {
    forall f | f in levels[level] ensures f.smallest.user <= f.largest.user {
      RangeAscends(f);
    }
  }

  lemma TouchedIs(levels: Levels, c: Inputs, s: InternalKey, l: InternalKey, touched: seq<File>, b: Bound, e: Bound)
    requires c.level < |levels| && IsSmallest(All(c), s) && IsLargest(All(c), l)
    requires Growable(levels, c.level, touched) && touched == Overlapping(levels[c.level], b, e)
    requires forall f :: f in levels[c.level] && InRange(f, Some(s.user), Some(l.user)) ==> f in touched
    requires LeastOver(levels[c.level], Some(s.user), Some(l.user), touched)
    requires c.level > 0 ==> b == Some(s.user) && e == Some(l.user)
    ensures Touched(levels, c, touched)
  {
    hide OverlapClosed, IsSmallest, IsLargest, Overlapping;
    var files := levels[c.level];
    HullRange(files, All(c), s, l);
    forall held | OverlapClosed(files, held) && forall f :: f in files && HullOverlap(All(c), f) ==> f in held
      ensures forall f :: f in touched ==> f in held
    {
      assert HoldsRange(files, Some(s.user), Some(l.user), held);
    }
  }

  lemma HullRange(files: seq<File>, inputs: seq<File>, s: InternalKey, l: InternalKey)
    requires IsSmallest(inputs, s) && IsLargest(inputs, l)
    ensures forall f :: f in files ==> (HullOverlap(inputs, f) <==> InRange(f, Some(s.user), Some(l.user)))
  {
    OverlappingIsHull(inputs, s, l, files);
  }

  lemma SetupGapFree(levels: Levels, c: Inputs, s: InternalKey, l: InternalKey)
    requires c.level + 1 < |levels| && c.in0 != [] && GapFree(c.in0)
    requires IsSmallest(c.in0, s) && IsLargest(c.in0, l)
    requires c.in1 == Overlapping(levels[c.level + 1], Some(s.user), Some(l.user))
    ensures GapFree(All(c))
  {
    OverlappingIsHull(c.in0, s, l, levels[c.level + 1]);
    MergedGapFree(c.in0, c.in1);
  }

  lemma SetupPicked(levels: Levels, c: Inputs, s: InternalKey, l: InternalKey)
    requires c.level + 1 < |levels| && c.in0 != [] && Complete(levels, c.level, c.in0)
    requires IsSmallest(c.in0, s) && IsLargest(c.in0, l)
    requires c.in1 == Overlapping(levels[c.level + 1], Some(s.user), Some(l.user))
    requires GapFree(All(c))
    ensures Picked(levels, c)
  {
    OverlappingIsHull(c.in0, s, l, levels[c.level + 1]);
  }

  lemma RangeGrows(files: seq<File>, more: seq<File>, s: InternalKey, l: InternalKey, s': InternalKey, l': InternalKey)
    requires IsSmallest(files, s) && IsLargest(files, l) && IsSmallest(more, s') && IsLargest(more, l')
    requires forall f :: f in files ==> f in more
    ensures s'.user <= s.user && l.user <= l'.user
  {
  }

  lemma MergedGapFree(in0: seq<File>, in1: seq<File>)
    requires in0 != [] && GapFree(in0) && forall g :: g in in1 ==> HullOverlap(in0, g)
    ensures GapFree(in0 + in1)
  {
    forall k | InHull(in0 + in1, k) ensures Covered(in0 + in1, k) {
      var x, y :| x in in0 + in1 && y in in0 + in1 && x.smallest.user <= k && k <= y.largest.user;
      if InHull(in0, k) {
        var z :| z in in0 && Spans(z, k);
        assert z in in0 + in1;
      } else {
        OutsideHull(in0, x, y, k);
        assert Spans(x, k) || Spans(y, k);
      }
    }
  }

  /** A key between two files, but outside the hull of `in0`, is in the range of one of them. */
  lemma OutsideHull(in0: seq<File>, x: File, y: File, k: UserKey)
    requires in0 != [] && !InHull(in0, k) && x.smallest.user <= k && k <= y.largest.user
    requires x in in0 || HullOverlap(in0, x)
    requires y in in0 || HullOverlap(in0, y)
    ensures Spans(x, k) || Spans(y, k)
  {
    if x in in0 {
      assert k < y.smallest.user ==> InHull(in0, k);
    }
  }

  lemma InputsInRange(levels: Levels, c: Inputs, s: InternalKey, l: InternalKey)
    requires FilesOk(levels) && Picked(levels, c) && IsSmallest(All(c), s) && IsLargest(All(c), l)
    ensures forall f :: f in All(c) ==> s.user <= f.smallest.user <= f.largest.user <= l.user
  {
    forall f | f in All(c) ensures s.user <= f.smallest.user <= f.largest.user <= l.user {
      assert f in levels[c.level] || f in levels[c.level + 1];
      RangeAscends(f);
    }
  }

  /** The grown set of `level` has again what boundary files need. */
  lemma ExpansionSeeded(levels: Levels, c: Inputs, s: InternalKey, l: InternalKey, expanded: seq<File>,
                        b: Bound, e: Bound)
    requires Layered(levels) && Picked(levels, c)
    requires IsSmallest(All(c), s) && IsLargest(All(c), l)
    requires expanded == Overlapping(levels[c.level], b, e)
    requires c.level > 0 ==> b == Some(s.user) && e == Some(l.user)
    requires c.level == 0 ==> Closed(levels[0], b, e)
    requires b.Some? && e.Some? && Contains(b, e, Some(s.user), Some(l.user))
    ensures forall f :: f in c.in0 ==> f in expanded
    ensures Growable(levels, c.level, expanded)
  {
    InputsInRange(levels, c, s, l);
    forall f | f in c.in0 ensures f in expanded {
      assert f in All(c) && f in levels[c.level];
    }
    if c.level > 0 {
      forall k | IsLargest(expanded, k) ensures Trailing(levels[c.level], expanded, k) {
        TrailingOverlap(levels[c.level], s.user, l.user, k);
      }
    }
  }

  /** ... and, with the files of the next level, has no gaps. */
  lemma ExpansionGapFree(levels: Levels, c: Inputs, s: InternalKey, l: InternalKey, expanded: seq<File>,
                         b: Bound, e: Bound)
    requires FilesOk(levels) && Picked(levels, c)
    requires IsSmallest(All(c), s) && IsLargest(All(c), l)
    requires forall f :: f in expanded ==> InRange(f, b, e)
    requires forall f :: f in c.in0 ==> f in expanded
    requires b.Some? && e.Some? && Contains(b, e, Some(s.user), Some(l.user))
    requires GrownCovered(expanded, Some(s.user), Some(l.user), b, e)
    ensures GapFree(expanded + c.in1)
  {
    InputsInRange(levels, c, s, l);
    forall f | f in expanded + c.in1 ensures InRange(f, b, e) {
      assert f in expanded || f in All(c);
    }
    forall k | InInterval(b, e, k) ensures Covered(expanded + c.in1, k) {
      if s.user <= k <= l.user {
        assert InHull(All(c), k);
        var z :| z in All(c) && Spans(z, k);
        assert z in expanded + c.in1;
      } else {
        var z :| z in expanded && Spans(z, k);
        assert z in expanded + c.in1;
      }
    }
    TouchingGapFree(expanded + c.in1, b.value, e.value);
  }

  /** Of the files overlapping a range, only the last can be continued by a file that does not. */
  lemma TrailingOverlap(files: seq<File>, begin: UserKey, end: UserKey, k: InternalKey)
    requires Disjoint(files) && forall f :: f in files ==> FileOk(f)
    requires IsLargest(Overlapping(files, Some(begin), Some(end)), k)
    ensures Trailing(files, Overlapping(files, Some(begin), Some(end)), k)
  {
    var chosen := Overlapping(files, Some(begin), Some(end));
    var last :| last in chosen && last.largest == k;
    forall f, h | f in chosen && h in files && h !in chosen && Boundary(f.largest, h)
      ensures Boundary(k, h)
    {
      if f != last {
        DisjointIsApart(files, f, last);
        RangeAscends(h);
        RangeAscends(last);
      }
    }
  }

  // ---------- choosing a compaction ----------

  /** Why a compaction runs: a level is over its limit (with the key where the last compaction of that
      level ended), or a file has been sought through too often. */
  datatype Trigger = NoTrigger | Size(level: nat, pointer: Option<InternalKey>) | Seek(level: nat, file: File)

  ghost predicate TriggerOk(levels: Levels, t: Trigger) {
    match t
    case NoTrigger => true
    case Size(level, _) => level + 1 < |levels| && levels[level] != []
    case Seek(level, f) => level + 1 < |levels| && f in levels[level]
  }

  /** File `i` is the first one that ends after the pointer; the first of the level when there is no pointer or no such
      file. */
  ghost predicate NextAt(files: seq<File>, pointer: Option<InternalKey>, i: int) {
    && 0 <= i < |files|
    && if pointer.Some? && exists f :: f in files && Less(pointer.value, f.largest) then
         Less(pointer.value, files[i].largest) && forall j :: 0 <= j < i ==> !Less(pointer.value, files[j].largest)
       else i == 0
  }

  ghost predicate IsSeed(levels: Levels, t: Trigger, seed: File)
    requires TriggerOk(levels, t)
  {
    match t
    case NoTrigger => false
    case Seek(_, f) => seed == f
    case Size(level, pointer) => exists i :: NextAt(levels[level], pointer, i) && seed == levels[level][i]
  }

  /** The file, and at level 0 also whatever overlaps it directly or through other files, but no more. */
  ghost predicate Seeded(files: seq<File>, level: nat, seed: File, chosen: seq<File>) {
    if level > 0 then chosen == [seed]
    else
      && seed in chosen && OverlapClosed(files, chosen)
      && (exists b, e :: chosen == Overlapping(files, b, e))
      && forall held :: OverlapClosed(files, held) && seed in held ==> forall f :: f in chosen ==> f in held
  }

  /** The choice of the inputs from the trigger on. */
  ghost predicate Chosen(levels: Levels, t: Trigger, expandedLimit: nat, c: Inputs, seed: File, chosen: seq<File>)
    requires TriggerOk(levels, t)
  {
    && IsSeed(levels, t, seed)
    && c.level == t.level
    && Seeded(levels[t.level], t.level, seed, chosen)
    && SetUp(levels, chosen, expandedLimit, c)
  }

  method PickCompaction(levels: Levels, t: Trigger, expandedLimit: nat)
    returns (r: Option<Inputs>, pointer: Option<InternalKey>, grandparents: seq<File>)
    requires Ordered(levels) && DistinctWrites(levels) && TriggerOk(levels, t)
    ensures r.None? <==> t.NoTrigger?
    ensures r.Some? ==> r.value.level == t.level && Picked(levels, r.value)
    ensures r.Some? && BoundaryClosed(levels, r.value) ==> Ready(levels, levels, r.value)
    ensures t.Seek? ==> t.file in r.value.in0
    ensures t.Size? ==> exists i :: NextAt(levels[t.level], t.pointer, i) && levels[t.level][i] in r.value.in0
    ensures r.Some? ==> exists seed, chosen :: Chosen(levels, t, expandedLimit, r.value, seed, chosen)
    ensures r.Some? ==> pointer.Some? && IsLargest(r.value.in0, pointer.value)
    ensures r.Some? && t.level + 2 < NUM_LEVELS ==> IsHullOverlap(levels[t.level + 2], All(r.value), grandparents)
  {
    hide Picked, BoundaryClosed, Ready, SetUp, Seeded, IsLargest, IsHullOverlap, Growable, GapFree, Less, DistinctWrites;
    r, pointer, grandparents := None, None, [];
    if t.NoTrigger? {
      return;
    }
    OrderedLayered(levels);
    var seed := PickSeed(levels, t);
    var chosen := SeedInputs(levels, t.level, seed);
    var c, key;
    c, key, grandparents := SetupOtherInputs(levels, t.level, chosen, expandedLimit);
    r, pointer := Some(c), Some(key);
    assert Chosen(levels, t, expandedLimit, c, seed, chosen);
    if BoundaryClosed(levels, c) {
      PickedIsReady(levels, c);
    }
  }

  lemma OrderedLayered(levels: Levels)
    requires Ordered(levels)
    ensures Layered(levels)
  {
  }

  /** The file to start from. */
  method PickSeed(levels: Levels, t: Trigger) returns (seed: File)
    requires TriggerOk(levels, t) && !t.NoTrigger?
    ensures seed in levels[t.level] && IsSeed(levels, t, seed)
  {
    hide Less;
    match t
    case Seek(_, f) => seed := f;
    case Size(level, pointer) =>
      var files := levels[level];
      for i := 0 to |files|
        invariant pointer.None? ==> i == 0
        invariant pointer.Some? ==> forall f :: f in files[..i] ==> !Less(pointer.value, f.largest)
      {
        if pointer.None? || Less(pointer.value, files[i].largest) {
          assert NextAt(files, pointer, i);
          return files[i];
        }
        assert files[..i + 1] == files[..i] + [files[i]];
      }
      assert files[..|files|] == files;
      assert NextAt(files, pointer, 0);
      seed := files[0];
  }

  /** One file, and at level 0 everything that overlaps it directly or through other files. */
  method SeedInputs(levels: Levels, level: nat, seed: File) returns (chosen: seq<File>)
    requires Layered(levels) && level + 1 < NUM_LEVELS && seed in levels[level]
    ensures seed in chosen && Growable(levels, level, chosen) && GapFree(chosen)
    ensures Seeded(levels[level], level, seed, chosen)
  {
    chosen := [seed];
    RangeAscends(seed);
    if level == 0 {
      var smallest, largest := GetRange(chosen);
      ghost var b: Bound, e: Bound;
      chosen, b, e := GetOverlappingInputs(levels[0], 0, Some(smallest.user), Some(largest.user));
      LayeredAscends(levels, 0);
      SeedClosure(levels[0], seed, chosen, b, e);
    } else {
      SeedAlone(levels, level, seed);
    }
  }

  lemma SeedAlone(levels: Levels, level: nat, seed: File)
    requires Layered(levels) && 0 < level < NUM_LEVELS && seed in levels[level]
    ensures Growable(levels, level, [seed]) && GapFree([seed])
  {
    forall k | InHull([seed], k) ensures Covered([seed], k) {
      assert Spans(seed, k);
    }
  }

  lemma SeedClosure(files: seq<File>, seed: File, chosen: seq<File>, b: Bound, e: Bound)
    requires Ascends(files) && seed in files && chosen == Overlapping(files, b, e) && b.Some? && e.Some?
    requires Contains(b, e, Some(seed.smallest.user), Some(seed.largest.user)) && Closed(files, b, e)
    requires GrownCovered(chosen, Some(seed.smallest.user), Some(seed.largest.user), b, e)
    requires LeastOver(files, Some(seed.smallest.user), Some(seed.largest.user), chosen)
    ensures seed in chosen && OverlapClosed(files, chosen) && GapFree(chosen) && Seeded(files, 0, seed, chosen)
  {
    hide Overlapping;
    assert seed in chosen;
    forall k | b.value <= k <= e.value ensures Covered(chosen, k) {
      assert InInterval(b, e, k);
      assert Spans(seed, k) || Covered(chosen, k);
    }
    TouchingGapFree(chosen, b.value, e.value);
    SeedLeast(files, seed, chosen);
  }

  lemma SeedLeast(files: seq<File>, seed: File, chosen: seq<File>)
    requires seed in files && LeastOver(files, Some(seed.smallest.user), Some(seed.largest.user), chosen)
    ensures forall held :: OverlapClosed(files, held) && seed in held ==> forall f :: f in chosen ==> f in held
  {
    forall held | OverlapClosed(files, held) && seed in held ensures forall f :: f in chosen ==> f in held {
      assert HoldsRange(files, Some(seed.smallest.user), Some(seed.largest.user), held);
    }
  }

  // ---------- where a flush goes ----------

  predicate RangeOverlap(smallest: UserKey, largest: UserKey, g: File) {
    smallest <= g.largest.user && g.smallest.user <= largest
  }

  method SomeFileOverlapsRange(disjointSorted: bool, files: seq<File>, smallest: UserKey, largest: UserKey)
    returns (r: bool)
    requires (forall f :: f in files ==> FileOk(f)) && (disjointSorted ==> Disjoint(files)) && smallest <= largest
    ensures r <==> exists f :: f in files && RangeOverlap(smallest, largest, f)
  {
    if !disjointSorted {
      for i := 0 to |files|
        invariant forall f :: f in files[..i] ==> !RangeOverlap(smallest, largest, f)
      {
        assert files[..i + 1] == files[..i] + [files[i]];
        if smallest > files[i].largest.user || largest < files[i].smallest.user {
        } else {
          assert RangeOverlap(smallest, largest, files[i]);
          return true;
        }
      }
      assert files[..|files|] == files;
      return false;
    }
    var index := FindFile(files, InternalKey(smallest, MAX_SEQUENCE, Value));
    forall i | 0 <= i < |files| ensures i < index <==> files[i].largest.user < smallest {
      var f := files[i];
      assert f in files && f.entries[|f.entries| - 1] in f.entries;
    }
    if index >= |files| {
      return false;
    }
    r := !(largest < files[index].smallest.user);
    assert r ==> RangeOverlap(smallest, largest, files[index]);
    forall i | index < i < |files| ensures RangeOverlap(smallest, largest, files[i]) ==> r {
      RangeAscends(files[index]);
    }
  }

  /** The deepest of levels 0 to 2 that the new table may go to without passing overlapping files.  The
      limit on grandparent overlap only makes it stop earlier. */
  method PickLevelForMemTableOutput(levels: Levels, smallest: UserKey, largest: UserKey, maxGrandparentBytes: nat)
    returns (level: nat)
    requires Layered(levels) && smallest <= largest
    ensures forall f: File :: f.smallest.user == smallest && f.largest.user == largest ==> FlushLevel(levels, f, level)
    ensures level < 2 ==>
      || (exists l, g :: l in {0, level + 1} && g in levels[l] && RangeOverlap(smallest, largest, g))
      || TotalFileSize(Overlapping(levels[level + 2], Some(smallest), Some(largest))) > maxGrandparentBytes
    ensures level <= 2 && forall l {:trigger levels[l]} :: 2 <= l < level + 2 ==>
      TotalFileSize(Overlapping(levels[l], Some(smallest), Some(largest))) <= maxGrandparentBytes
  {
    hide Layered, RangeOverlap, ClearDown, FlushLevel, FileOk, Disjoint, TotalFileSize, Overlapping, Closed, Ascends,
         LeastOver, Contains, InRange, WithinClosed, GrownCovered;
    level := 0;
    FilesOfLevel(levels, 0);
    var overlap := SomeFileOverlapsRange(false, levels[0], smallest, largest);
    if !overlap {
      ClearNext(levels, 0, smallest, largest);
      while level < 2
        invariant level <= 2 && ClearDown(levels, level, smallest, largest)
        invariant forall l {:trigger levels[l]} :: 2 <= l < level + 2 ==>
          TotalFileSize(Overlapping(levels[l], Some(smallest), Some(largest))) <= maxGrandparentBytes
      {
        FilesOfLevel(levels, level + 1);
        overlap := SomeFileOverlapsRange(true, levels[level + 1], smallest, largest);
        if overlap {
          break;
        }
        ghost var b: Bound, e: Bound;
        var overlaps;
        overlaps, b, e := GetOverlappingInputs(levels[level + 2], level + 2, Some(smallest), Some(largest));
        if TotalFileSize(overlaps) > maxGrandparentBytes {
          break;
        }
        level := level + 1;
        ClearNext(levels, level, smallest, largest);
      }
    }
    ClearIsFlushLevel(levels, level, smallest, largest);
  }

  /** No file overlaps the range from level 0 to `level`. */
  ghost predicate ClearDown(levels: Levels, level: nat, smallest: UserKey, largest: UserKey) {
    && level < |levels|
    && forall l, g :: 0 <= l <= level && g in levels[l] ==> !RangeOverlap(smallest, largest, g)
  }

  lemma FilesOfLevel(levels: Levels, l: nat)
    requires Layered(levels) && l < NUM_LEVELS
    ensures |levels| == NUM_LEVELS && (forall f :: f in levels[l] ==> FileOk(f)) && (l > 0 ==> Disjoint(levels[l]))
  {
  }

  lemma ClearNext(levels: Levels, level: nat, smallest: UserKey, largest: UserKey)
    requires level < |levels| && (level > 0 ==> ClearDown(levels, level - 1, smallest, largest))
    requires !exists g :: g in levels[level] && RangeOverlap(smallest, largest, g)
    ensures ClearDown(levels, level, smallest, largest)
  {
    hide RangeOverlap;
    forall l, g | 0 <= l <= level && g in levels[l] ensures !RangeOverlap(smallest, largest, g) {
      if l == level {
        assert g in levels[level];
      }
    }
  }

  lemma ClearIsFlushLevel(levels: Levels, level: nat, smallest: UserKey, largest: UserKey)
    requires |levels| == NUM_LEVELS && level <= 2 && (level > 0 ==> ClearDown(levels, level, smallest, largest))
    ensures forall f: File :: f.smallest.user == smallest && f.largest.user == largest ==> FlushLevel(levels, f, level)
  {
    forall f: File, l, g | f.smallest.user == smallest && f.largest.user == largest && level > 0 &&
        0 <= l <= level && g in levels[l]
      ensures !UserOverlap(f, g)
    {
      assert !RangeOverlap(smallest, largest, g);
    }
  }
}
