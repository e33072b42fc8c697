/** What a version stores of the write history, and why flushes, moves and compactions keep it
    (db/db_impl.cc, lines 491-566, 718-725 and 878-999; db/version_set.cc, lines 491-516). */
module Storage {
  import opened DbFormat
  import opened Version

  /** `e` is an entry of the history. */
  predicate Recorded(h: seq<Entry>, e: Entry) {
    0 < e.key.sn <= |h| && h[e.key.sn - 1] == e
  }

  /** The version answers a read of `user` at `s` as the history does: either it holds the newest
      visible entry, or it holds no visible entry at all and the history shows nothing. */
  ghost predicate Agree(levels: Levels, h: seq<Entry>, user: UserKey, s: nat) {
    || (exists n :: Newest(h, user, s, n) && Has(levels, h[n]))
    || ((forall e :: Has(levels, e) ==> !Matches(e, user, s)) &&
        (forall n :: Newest(h, user, s, n) ==> h[n].key.kind.Deletion?))
  }

  /** The version stands for the history `h` to every reader at a snapshot of at least `floor`. */
  ghost predicate Stores(levels: Levels, h: seq<Entry>, floor: nat) {
    && Ordered(levels)
    && History(h)
    && (forall e :: Has(levels, e) ==> Recorded(h, e))
    && (forall user, s :: s >= floor ==> Agree(levels, h, user, s))
  }

  /** `Version::Get` gives the answer of the history. */
  lemma FindsIsLookup(levels: Levels, h: seq<Entry>, user: UserKey, s: nat, r: Option<Entry>)
    requires History(h) && Agree(levels, h, user, s) && forall e :: Has(levels, e) ==> Recorded(h, e)
    requires Finds(levels, user, s, r)
    ensures Lookup(h, user, s) == if r.Some? then Shown(r.value) else None
  {
    var n := NewestExists(h, user, s);
    if n < 0 {
      LookupFindsNothing(h, user, s);
    } else {
      LookupIsNewest(h, user, s, n);
    }
  }

  // ---------- adding files ----------

  predicate Apart(f: File, g: File) {
    Less(f.largest, g.smallest) || Less(g.largest, f.smallest)
  }

  lemma ApartIsDisjoint(files: seq<File>)
    requires BySmallest(files) && forall f :: f in files ==> FileOk(f)
    requires forall f, g :: f in files && g in files && f != g ==> Apart(f, g)
    ensures Disjoint(files)
  {
    forall i, j | 0 <= i < j < |files|
      ensures Less(files[i].largest, files[j].smallest)
    {
      assert FileLess(files[i], files[j]);
      assert Apart(files[i], files[j]);
      RangeAscends(files[j]);
    }
  }

  lemma DisjointIsApart(files: seq<File>, f: File, g: File)
    requires Disjoint(files) && f in files && g in files && f != g
    ensures Apart(f, g)
  {
    var i :| 0 <= i < |files| && files[i] == f;
    var j :| 0 <= j < |files| && files[j] == g;
  }

  /** Files without a common user key are trivially newer than each other, and apart. */
  lemma NoOverlap(f: File, g: File)
    requires FileOk(f) && FileOk(g) && !UserOverlap(f, g)
    ensures Newer(f, g) && Newer(g, f) && Apart(f, g)
  {
    forall a, b | a in f.entries && b in g.entries ensures a.key.user != b.key.user {
      WithinRange(f, a);
      WithinRange(g, b);
    }
  }

  // ---------- flush ----------

  /** Where a memtable file may go: level 0, or level 1 or 2 if nothing there or above overlaps it. */
  ghost predicate FlushLevel(levels: Levels, f: File, level: nat) {
    && level <= 2 < |levels|
    && (level > 0 ==> forall l, g :: 0 <= l <= level && g in levels[l] ==> !UserOverlap(f, g))
  }

  /** `f` is the table built from the part of the history after `p`. */
  ghost predicate BuiltFrom(f: File, h: seq<Entry>, p: nat) {
    FileOk(f) && forall e :: e in f.entries <==> Recorded(h, e) && e.key.sn > p
  }

  ghost predicate Fresh(levels: Levels, number: nat) {
    forall l, g :: 0 <= l < |levels| && g in levels[l] ==> g.number < number
  }

  lemma FlushedIsNewer(before: Levels, h: seq<Entry>, p: nat, f: File)
    requires p <= |h| && BuiltFrom(f, h, p) && forall e :: Has(before, e) ==> Recorded(h[..p], e)
    ensures forall l, g :: 0 <= l < |before| && g in before[l] ==> Newer(f, g)
  {
    forall l, g, a, b | 0 <= l < |before| && g in before[l] && a in f.entries && b in g.entries
      ensures a.key.sn > b.key.sn
    {
      assert Has(before, b);
    }
  }

  /** Adding a file to a deeper level keeps the level disjoint if it overlaps nothing there. */
  lemma AddedDisjoint(before: seq<File>, f: File, after: seq<File>)
    requires Disjoint(before) && BySmallest(after) && FileOk(f) && forall g :: g in before ==> FileOk(g)
    requires forall g :: g in before ==> !UserOverlap(f, g)
    requires forall g :: g in after <==> g in before || g == f
    ensures Disjoint(after)
  {
    forall a, b | a in after && b in after && a != b ensures Apart(a, b) {
      if a in before && b in before {
        DisjointIsApart(before, a, b);
      }
    }
    ApartIsDisjoint(after);
  }

  lemma SameFilesDisjoint(before: seq<File>, after: seq<File>)
    requires Disjoint(before) && BySmallest(after) && forall g :: g in before ==> FileOk(g)
    requires forall g :: g in after ==> g in before
    ensures Disjoint(after)
  {
    forall a, b | a in after && b in after && a != b ensures Apart(a, b) {
      DisjointIsApart(before, a, b);
    }
    ApartIsDisjoint(after);
  }

  lemma FlushOrder(before: Levels, after: Levels, f: File, level: nat)
    requires Ordered(before) && FileOk(f)
    requires forall l, g :: 0 <= l < |before| && g in before[l] ==> Newer(f, g)
    requires FlushLevel(before, f, level) && Fresh(before, f.number)
    requires Applied(before, FileEdit({}, [(level, f)]), after)
    ensures Ordered(after)
  {
    hide FlushLevel, Fresh, Applied, Newer, FilesOk, DirectoryOrder, DistinctNumbers, DeeperDisjoint, Level0ByAge,
         ShallowIsNewer, FileOk;
    FlushFiles(before, after, f, level);
    FlushDisjoint(before, after, f, level);
    FlushAge(before, after, f, level);
  }

  lemma FlushFiles(before: Levels, after: Levels, f: File, level: nat)
    requires |before| == NUM_LEVELS && FilesOk(before) && DistinctNumbers(before) && FileOk(f)
    requires FlushLevel(before, f, level) && Fresh(before, f.number)
    requires Applied(before, FileEdit({}, [(level, f)]), after)
    ensures |after| == NUM_LEVELS && FilesOk(after) && DirectoryOrder(after) && DistinctNumbers(after)
  {
    hide FileOk, BySmallest;
  }

  lemma FlushDisjoint(before: Levels, after: Levels, f: File, level: nat)
    requires |before| == NUM_LEVELS && FilesOk(before) && DeeperDisjoint(before) && FileOk(f)
    requires FlushLevel(before, f, level) && Applied(before, FileEdit({}, [(level, f)]), after)
    ensures DeeperDisjoint(after)
  {
    hide FileOk, BySmallest, Disjoint, UserOverlap;
    forall l | 1 <= l < NUM_LEVELS ensures Disjoint(after[l]) {
      if l == level {
        AddedDisjoint(before[l], f, after[l]);
      } else {
        SameFilesDisjoint(before[l], after[l]);
      }
    }
  }

  lemma FlushAge(before: Levels, after: Levels, f: File, level: nat)
    requires |before| == NUM_LEVELS && ShallowIsNewer(before) && Level0ByAge(before[0]) && FilesOk(before) && FileOk(f)
    requires forall l, g :: 0 <= l < |before| && g in before[l] ==> Newer(f, g)
    requires FlushLevel(before, f, level) && Fresh(before, f.number)
    requires Applied(before, FileEdit({}, [(level, f)]), after)
    ensures ShallowIsNewer(after) && Level0ByAge(after[0])
  {
    forall l, m, a, b | 0 <= l < m < |after| && a in after[l] && b in after[m] ensures Newer(a, b) {
      if b == f && m == level {
        NoOverlap(f, a);
      }
    }
  }

  /** Flushing the memtable that holds the history after `p` makes the version store all of it. */
  lemma FlushKeeps(before: Levels, after: Levels, h: seq<Entry>, p: nat, floor: nat, f: File, level: nat)
    requires p <= |h| && History(h) && Stores(before, h[..p], floor)
    requires BuiltFrom(f, h, p) && FlushLevel(before, f, level) && Fresh(before, f.number)
    requires Applied(before, FileEdit({}, [(level, f)]), after)
    ensures Stores(after, h, floor)
  {
    hide Ordered, Has, Agree, Recorded, BuiltFrom, FlushLevel, Fresh, Applied, Newer, History;
    FlushOk(before, h, p, f, level);
    FlushedIsNewer(before, h, p, f);
    FlushOrder(before, after, f, level);
    FlushContents(before, after, h, p, f, level);
    FlushRecorded(before, after, h, p);
    forall user, s | s >= floor ensures Agree(after, h, user, s) {
      AgreeExtends(before, after, h, p, user, s);
    }
  }

  lemma FlushOk(before: Levels, h: seq<Entry>, p: nat, f: File, level: nat)
    requires BuiltFrom(f, h, p) && FlushLevel(before, f, level)
    ensures FileOk(f) && level < NUM_LEVELS
  {
  }

  lemma FlushRecorded(before: Levels, after: Levels, h: seq<Entry>, p: nat)
    requires p <= |h| && forall e :: Has(before, e) ==> Recorded(h[..p], e)
    requires forall e :: Has(after, e) <==> Has(before, e) || (Recorded(h, e) && e.key.sn > p)
    ensures forall e :: Has(after, e) ==> Recorded(h, e)
  {
    hide Has;
  }

  lemma FlushContents(before: Levels, after: Levels, h: seq<Entry>, p: nat, f: File, level: nat)
    requires BuiltFrom(f, h, p) && level < NUM_LEVELS
    requires Applied(before, FileEdit({}, [(level, f)]), after)
    ensures forall e :: Has(after, e) <==> Has(before, e) || (Recorded(h, e) && e.key.sn > p)
  {
    forall e
      ensures Has(after, e) <==> Has(before, e) || (Recorded(h, e) && e.key.sn > p)
    {
      if Has(after, e) {
        var l, g :| 0 <= l < NUM_LEVELS && g in after[l] && e in g.entries;
        assert g == f || g in before[l];
      }
      if Has(before, e) {
        var l, g :| 0 <= l < NUM_LEVELS && g in before[l] && e in g.entries;
        assert g in after[l];
      }
      if e in f.entries {
        assert f in after[level];
      }
    }
  }

  lemma AgreeExtends(before: Levels, after: Levels, h: seq<Entry>, p: nat, user: UserKey, s: nat)
    requires p <= |h| && History(h)
    requires Agree(before, h[..p], user, s)
    requires forall e :: Has(before, e) ==> Recorded(h[..p], e)
    requires forall e :: Has(after, e) <==> Has(before, e) || (Recorded(h, e) && e.key.sn > p)
    ensures Agree(after, h, user, s)
  {
    var n := NewestExists(h, user, s);
    if n >= p {
      assert Recorded(h, h[n]);
    } else if n >= 0 {
      assert Newest(h[..p], user, s, n);
    }
  }

  lemma StoresLater(levels: Levels, h: seq<Entry>, floor: nat, later: nat)
    requires Stores(levels, h, floor) && floor <= later
    ensures Stores(levels, h, later)
  {
  }
}
