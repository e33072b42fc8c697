/** Opening a database again: replaying the manifest and the logs (db/db_impl.cc, lines 276-489 and
    1492-1524; db/version_set.cc, lines 886-1011 and 1088-1116). */
module Recovery {
  import opened DbFormat
  import opened Version
  import opened Storage
  import opened Builder
  import opened Database
  import opened DatabaseInvariant

  // ---------- what recovery reads ----------

  lemma {:induction false} MaxSequenceIsLast(tail: seq<Entry>, point: nat, last: nat)
    requires forall i :: 0 <= i < |tail| ==> tail[i].key.sn == point + i + 1
    requires point <= last <= point + |tail|
    ensures MaxSequence(tail, last) == point + |tail|
  {
    if tail != [] {
      if last == point + |tail| {
        MaxSequenceBelow(tail[..|tail| - 1], last);
      } else {
        MaxSequenceIsLast(tail[..|tail| - 1], point, last);
      }
    }
  }

  lemma {:induction false} MaxSequenceBelow(entries: seq<Entry>, last: nat)
    requires forall i :: 0 <= i < |entries| ==> entries[i].key.sn <= last
    ensures MaxSequence(entries, last) == last
  {
    if entries != [] {
      MaxSequenceBelow(entries[..|entries| - 1], last);
    }
  }

  /** The table files give back the entries that the manifest does not record. */
  lemma ReloadHolds(v: Levels, tables: map<nat, seq<Entry>>)
    requires TablesHold(tables, v)
    ensures Reload(v, tables) == v
  {
    forall l | 0 <= l < |v| ensures ReloadLevel(v[l], tables) == v[l] {
      forall i | 0 <= i < |v[l]| ensures ReloadFile(v[l][i], tables) == v[l][i] {
        assert v[l][i] in v[l];
      }
    }
  }

  lemma TailUpTo(logs: map<nat, Log>, from: nat, bound: nat, newLog: nat)
    requires AllBelow(logs.Keys, bound) && AllBelow(logs.Keys, newLog)
    ensures Tail(logs, from, newLog) == Tail(logs, from, bound)
  {
    if bound <= newLog {
      TailBeyond(logs, from, bound, newLog);
    } else {
      TailBeyond(logs, from, newLog, bound);
    }
  }

  // ---------- the recovered version ----------

  lemma AppliedOnce(before: Levels, e: FileEdit, v: Levels, w: Levels)
    requires Applied(before, e, v) && Applied(before, e, w)
    ensures v == w
  {
    forall l | 0 <= l < NUM_LEVELS ensures v[l] == w[l] {
      OneOrder(v[l], w[l]);
    }
  }

  lemma SplitLast<T>(s: seq<T>)
    requires s != []
    ensures s == s[..|s| - 1] + [s[|s| - 1]]
  {
  }

  function WithFile(v: Levels, f: File): Levels
    requires |v| == NUM_LEVELS && BySmallest(v[0])
  {
    v[0 := Insert(v[0], f)]
  }

  lemma WithFileApplied(v: Levels, f: File)
    requires |v| == NUM_LEVELS && DirectoryOrder(v) && Fresh(v, f.number)
    ensures Applied(v, FileEdit({}, [(0, f)]), WithFile(v, f))
  {
  }

  /** Adding the files one at a time or all at once. */
  lemma AppliedLast(v: Levels, tables: seq<File>, w: Levels, f: File, x: Levels)
    requires Applied(v, FileEdit({}, Level0Files(tables)), w) && Applied(w, FileEdit({}, [(0, f)]), x)
    ensures Applied(v, FileEdit({}, Level0Files(tables + [f])), x)
  {
    assert Level0Files(tables + [f]) == Level0Files(tables) + [(0, f)];
  }

  lemma AppliedNone(v: Levels)
    requires |v| == NUM_LEVELS && DirectoryOrder(v)
    ensures Applied(v, FileEdit({}, Level0Files([])), v)
  {
  }

  /** The recovered tables, added at level 0 one after the other, make the version store everything that
      was in the logs. */
  lemma {:induction false} RecoverStores(v: Levels, h: seq<Entry>, p: nat, floor: nat, cuts: seq<nat>,
                                         tables: seq<File>, first: nat, next: nat)
    returns (w: Levels)
    requires History(h) && p <= |h| && Stores(v, h[..p], floor) && Fresh(v, first)
    requires RecoveredTables(h[p..], cuts, tables, first)
    requires first <= next && forall i :: 0 <= i < |tables| ==> tables[i].number < next
    ensures Applied(v, FileEdit({}, Level0Files(tables)), w)
    ensures Stores(w, h, floor) && Fresh(w, next)
    decreases |tables|, 0
  {
    hide Stores, Applied, FileOk, BuiltFrom;
    StoresOrdered(v, h[..p], floor);
    if tables == [] {
      w := v;
      assert h[..p] == h;
      AppliedNone(v);
      FreshLater(v, first, next);
    } else {
      var k := |tables| - 1;
      PrefixRecovered(h, p, cuts, tables, first);
      LastTable(h, p, cuts, tables, first);
      SplitLast(tables);
      assert forall i :: 0 <= i < k ==> tables[i].number < tables[k].number;
      assert first <= tables[k].number < next;
      hide RecoveredTables;
      w := RecoverOneMore(v, h, p, p + cuts[k], floor, cuts[..k + 1], tables[..k], first, tables[k], next);
    }
  }

  lemma {:induction false} RecoverOneMore(v: Levels, h: seq<Entry>, p: nat, q: nat, floor: nat, cuts: seq<nat>,
                                          tables: seq<File>, first: nat, f: File, next: nat)
    returns (w: Levels)
    requires History(h) && p <= q <= |h| && Stores(v, h[..p], floor) && Fresh(v, first)
    requires RecoveredTables(h[..q][p..], cuts, tables, first)
    requires first <= f.number < next && forall i :: 0 <= i < |tables| ==> tables[i].number < f.number
    requires BuiltFrom(f, h, q)
    ensures Applied(v, FileEdit({}, Level0Files(tables + [f])), w)
    ensures Stores(w, h, floor) && Fresh(w, next)
    decreases |tables|, 1
  {
    hide Stores, Applied, RecoveredTables, BuiltFrom;
    var part := h[..q];
    assert part[..p] == h[..p];
    var u := RecoverStores(v, part, p, floor, cuts, tables, first, f.number);
    StoresOrdered(u, part, floor);
    w := WithFile(u, f);
    WithFileApplied(u, f);
    AppliedLast(v, tables, u, f, w);
    FlushKeeps(u, w, h, q, floor, f, 0);
    FreshAfter(u, f, w, next);
  }

  /** The last table holds the end of the history. */
  lemma LastTable(h: seq<Entry>, p: nat, cuts: seq<nat>, tables: seq<File>, first: nat)
    requires History(h) && p <= |h| && tables != [] && RecoveredTables(h[p..], cuts, tables, first)
    ensures var k := |tables| - 1;
      k < |cuts| && BuiltFrom(tables[k], h, p + cuts[k])
  {
    var k := |tables| - 1;
    var f := tables[k];
    var q := p + cuts[k];
    assert h[q..|h|] == h[p..][cuts[k]..cuts[k + 1]];
    assert h[..|h|] == h;
    forall e ensures e in f.entries <==> Recorded(h, e) && e.key.sn > q {
      SliceEntries(h, q, |h|, e);
    }
  }

  lemma FreshAfter(u: Levels, f: File, w: Levels, next: nat)
    requires Fresh(u, f.number) && f.number < next && Applied(u, FileEdit({}, [(0, f)]), w)
    ensures Fresh(w, next)
  {
  }

  /** All but the last table, and the history without what that table holds. */
  lemma PrefixRecovered(h: seq<Entry>, p: nat, cuts: seq<nat>, tables: seq<File>, first: nat)
    requires p <= |h| && tables != [] && RecoveredTables(h[p..], cuts, tables, first)
    ensures var k := |tables| - 1;
      && k < |cuts| && p + cuts[k] <= |h|
      && RecoveredTables(h[..p + cuts[k]][p..], cuts[..k + 1], tables[..k], first)
  {
    hide FileOk, SameEntries;
    var k := |tables| - 1;
    assert cuts[k] < cuts[k + 1];
    var tail, front := h[p..], h[..p + cuts[k]][p..];
    assert front == tail[..cuts[k]];
    forall i | 0 <= i < k ensures HoldsChunk(tables[i], front, cuts[i], cuts[i + 1]) {
      assert HoldsChunk(tables[i], tail, cuts[i], cuts[i + 1]);
      assert i + 1 < k ==> cuts[i + 1] < cuts[k];
      assert front[cuts[i]..cuts[i + 1]] == tail[cuts[i]..cuts[i + 1]];
    }
  }

  // ---------- the recovered tables on disk ----------

  lemma {:induction false} WriteTablesKeeps(disk: map<nat, seq<Entry>>, tables: seq<File>, n: nat)
    requires forall i :: 0 <= i < |tables| ==> tables[i].number != n
    ensures n in disk ==> n in WriteTables(disk, tables) && WriteTables(disk, tables)[n] == disk[n]
  {
    if tables != [] {
      WriteTablesKeeps(disk, tables[..|tables| - 1], n);
    }
  }

  lemma {:induction false} WriteTablesHas(disk: map<nat, seq<Entry>>, tables: seq<File>, i: nat)
    requires i < |tables| && forall j, k :: 0 <= j < k < |tables| ==> tables[j].number < tables[k].number
    ensures tables[i].number in WriteTables(disk, tables)
    ensures WriteTables(disk, tables)[tables[i].number] == tables[i].entries
  {
    if i < |tables| - 1 {
      WriteTablesHas(disk, tables[..|tables| - 1], i);
    }
  }

  lemma RecoveredHold(disk: map<nat, seq<Entry>>, v: Levels, cuts: seq<nat>, tail: seq<Entry>, tables: seq<File>,
                      next: nat, w: Levels)
    requires TablesHold(disk, v) && Fresh(v, next) && RecoveredTables(tail, cuts, tables, next + 1)
    requires Applied(v, FileEdit({}, Level0Files(tables)), w)
    ensures TablesHold(WriteTables(disk, tables), w)
  {
    forall l, f | 0 <= l < |w| && f in w[l]
      ensures f.number in WriteTables(disk, tables) && WriteTables(disk, tables)[f.number] == f.entries
    {
      if f in v[l] {
        WriteTablesKeeps(disk, tables, f.number);
      } else {
        var i :| 0 <= i < |Level0Files(tables)| && Level0Files(tables)[i] == (l, f);
        WriteTablesHas(disk, tables, i);
      }
    }
  }

  // ---------- the new manifest ----------

  lemma {:induction false} SnapshotMembers(v: Levels, n: nat)
    requires n <= |v|
    ensures forall l: nat, f :: (l, f) in SnapshotFiles(v, n) <==> l < n && f in v[l]
  {
    if n > 0 {
      SnapshotMembers(v, n - 1);
      forall l: nat, f ensures (l, f) in LevelFiles(v[n - 1], n - 1) <==> l == n - 1 && f in v[n - 1] {
        if l == n - 1 && f in v[n - 1] {
          var i :| 0 <= i < |v[n - 1]| && v[n - 1][i] == f;
          assert LevelFiles(v[n - 1], n - 1)[i] == (l, f);
        }
      }
    }
  }

  predicate AllDistinct(files: seq<(nat, File)>) {
    forall i, j :: 0 <= i < j < |files| ==> files[i].1.number != files[j].1.number
  }

  lemma {:induction false} SnapshotDistinct(v: Levels, n: nat)
    requires n <= |v| && DistinctNumbers(v) && DirectoryOrder(v)
    ensures AllDistinct(SnapshotFiles(v, n))
  {
    if n > 0 {
      SnapshotDistinct(v, n - 1);
      SnapshotMembers(v, n - 1);
      var front, back := SnapshotFiles(v, n - 1), LevelFiles(v[n - 1], n - 1);
      forall i, j | 0 <= i < |front| && 0 <= j < |back| ensures front[i].1.number != back[j].1.number {
        var (l, f) := front[i];
        assert (l, f) in front;
        assert v[n - 1][j] in v[n - 1];
      }
      forall i, j | 0 <= i < j < |back| ensures back[i].1.number != back[j].1.number {
        assert FileLess(v[n - 1][i], v[n - 1][j]);
        assert v[n - 1][i] in v[n - 1] && v[n - 1][j] in v[n - 1];
      }
    }
  }

  lemma SnapshotApplied(v: Levels)
    requires |v| == NUM_LEVELS && DirectoryOrder(v)
    ensures Applied(EMPTY, FileEdit({}, SnapshotFiles(v, |v|)), v)
  {
    hide SnapshotFiles, BySmallest;
    SnapshotMembers(v, |v|);
    FromNothing(SnapshotFiles(v, |v|), v);
  }

  lemma FromNothing(files: seq<(nat, File)>, v: Levels)
    requires |v| == NUM_LEVELS && DirectoryOrder(v)
    requires forall l: nat, f :: (l, f) in files <==> l < |v| && f in v[l]
    ensures Applied(EMPTY, FileEdit({}, files), v)
  {
    hide BySmallest;
    forall l | 0 <= l < NUM_LEVELS ensures EMPTY[l] == [] {
    }
  }

  lemma NothingAdded(l: nat)
    ensures ApplyAll([], l) == LevelState({}, [])
  {
  }

  lemma EmptyBuilt()
    ensures Built(EMPTY, [], EMPTY)
  {
  }

  /** `WriteSnapshot`: the first edit of a new manifest rebuilds the version. */
  lemma SnapshotBuilt(v: Levels, next: nat)
    requires |v| == NUM_LEVELS && DirectoryOrder(v) && DistinctNumbers(v) && Fresh(v, next)
    ensures var s := FileEdit({}, SnapshotFiles(v, |v|));
      Built(EMPTY, [s], v) && Descending([s], v) && AddedBelow([s], next, {})
  {
    hide Built, Applied, DistinctNumbers, Fresh, Descending, AddedBelow;
    var s := FileEdit({}, SnapshotFiles(v, |v|));
    SnapshotDescends(v);
    SnapshotApplied(v);
    EmptyBuilt();
    DescendsNeverHeld([], s);
    BuiltStep(EMPTY, [], EMPTY, s, v);
    assert [] + [s] == [s];
    NothingYet(next);
    DescendingAfter([], s, EMPTY, v, next, {}, {});
  }

  lemma SnapshotDescends(v: Levels)
    requires |v| == NUM_LEVELS && DirectoryOrder(v) && DistinctNumbers(v)
    ensures EditDescends([], FileEdit({}, SnapshotFiles(v, |v|)))
  {
    var files := SnapshotFiles(v, |v|);
    SnapshotMembers(v, |v|);
    SnapshotDistinct(v, |v|);
    forall i | 0 <= i < |files| ensures files[i].0 < NUM_LEVELS {
      var (l, f) := files[i];
      assert (l, f) in files;
    }
    forall l: nat ensures ApplyAll([], l).added == [] {
      NothingAdded(l);
    }
  }

  lemma NothingYet(next: nat)
    ensures Descending([], EMPTY) && AddedBelow([], next, {})
  {
    forall l: nat ensures ApplyAll([], l).added == [] {
      NothingAdded(l);
    }
  }

  lemma RecoveredDescends(edits: seq<FileEdit>, next: nat, tail: seq<Entry>, cuts: seq<nat>, tables: seq<File>)
    requires AddedBelow(edits, next, {}) && RecoveredTables(tail, cuts, tables, next + 1)
    ensures EditDescends(edits, FileEdit({}, Level0Files(tables)))
  {
  }

  /** The second edit adds the recovered tables. */
  lemma ManifestBuilt(v: Levels, w: Levels, next: nat, end: nat, tail: seq<Entry>, cuts: seq<nat>, tables: seq<File>)
    requires |v| == NUM_LEVELS && DirectoryOrder(v) && DistinctNumbers(v) && Fresh(v, next)
    requires RecoveredTables(tail, cuts, tables, next + 1) && Applied(v, FileEdit({}, Level0Files(tables)), w)
    requires DistinctNumbers(w) && Fresh(w, end) && next <= end
    ensures var edits := [FileEdit({}, SnapshotFiles(v, |v|)), FileEdit({}, Level0Files(tables))];
      Built(EMPTY, edits, w) && Descending(edits, w) && AddedBelow(edits, end, {})
  {
    hide Built, Applied, DistinctNumbers, Descending, EditDescends, RecoveredTables, Fresh;
    var s := FileEdit({}, SnapshotFiles(v, |v|));
    var e := FileEdit({}, Level0Files(tables));
    SnapshotBuilt(v, next);
    RecoveredDescends([s], next, tail, cuts, tables);
    DescendsNeverHeld([s], e);
    BuiltStep(EMPTY, [s], v, e, w);
    assert [s] + [e] == [s, e];
    DescendingAfter([s], e, v, w, end, {}, {});
  }

  // ---------- the open database ----------

  /** Recovery finds the version, the entries and the last sequence number that the disk stands for. */
  lemma RecoveryReads(s: State, d: Durable, a: Action)
    requires s.mode == Closed(d) && Inv(s) && a.Reopen? && CanReopen(s, a)
    ensures LastMeta(s.disk.manifests[s.disk.current]) == Some(d.meta)
    ensures Reload(a.manifest, s.disk.tables) == d.levels
    ensures Tail(s.disk.logs, d.meta.log, a.newLog) == s.hist[d.point..]
    ensures MaxSequence(s.hist[d.point..], d.meta.last) == |s.hist|
  {
    hide Stores, Built, RecoveredTables, Applied;
    var edits := s.disk.manifests[s.disk.current];
    BuiltOnce(EMPTY, FileEdits(edits), a.manifest, d.levels);
    ReloadHolds(d.levels, s.disk.tables);
    TailUpTo(s.disk.logs, d.meta.log, d.bound, a.newLog);
    MaxSequenceIsLast(s.hist[d.point..], d.point, d.meta.last);
  }

  /** The recovered version stores the whole history. */
  lemma RecoveredVersion(s: State, d: Durable, a: Action)
    requires s.mode == Closed(d) && Inv(s) && a.Reopen? && CanReopen(s, a)
    ensures Stores(a.after, s.hist, |s.hist|) && Fresh(a.after, a.nextFile)
    ensures TablesHold(WriteTables(s.disk.tables, a.tables), a.after)
    ensures Built(EMPTY, FileEdits(NewManifest(s, a)), a.after)
    ensures Descending(FileEdits(NewManifest(s, a)), a.after)
    ensures AddedBelow(FileEdits(NewManifest(s, a)), a.nextFile, {})
  {
    hide Stores, Built, RecoveredTables, Applied, Descending, AddedBelow;
    RecoveryReads(s, d, a);
    FreshLater(d.levels, d.meta.next, d.meta.next + 1);
    var w := RecoverStores(d.levels, s.hist, d.point, |s.hist|, a.cuts, a.tables, d.meta.next + 1, a.nextFile);
    AppliedOnce(d.levels, FileEdit({}, Level0Files(a.tables)), w, a.after);
    RecoveredHold(s.disk.tables, d.levels, a.cuts, s.hist[d.point..], a.tables, d.meta.next, a.after);
    StoresOrdered(d.levels, s.hist[..d.point], |s.hist|);
    StoresOrdered(a.after, s.hist, |s.hist|);
    ManifestBuilt(d.levels, a.after, d.meta.next, a.nextFile, s.hist[d.point..], a.cuts, a.tables);
    assert FileEdits(NewManifest(s, a)) ==
      [FileEdit({}, SnapshotFiles(d.levels, |d.levels|)), FileEdit({}, Level0Files(a.tables))];
  }

  lemma ReopenInv(s: State, d: Durable, a: Action)
    requires s.mode == Closed(d) && Inv(s) && a.Reopen? && CanReopen(s, a)
    ensures Inv(AfterReopen(s, a))
  {
    hide Stores, Built, RecoveredTables, Applied, Descending, AddedBelow, TablesHold, Fresh;
    RecoveryReads(s, d, a);
    RecoveredVersion(s, d, a);
    var t := AfterReopen(s, a);
    var m := t.mode.m;
    TailNew(s.disk.logs, a.newLog, a.newLog);
    TailBeyond(t.disk.logs, a.newLog, a.newLog + 1, a.nextFile);
    assert s.hist[..|s.hist|] == s.hist && s.hist + [] == s.hist && s.hist[|s.hist|..] == [];
    assert MemFits(s.hist, m);
    assert NewManifest(s, a) == t.disk.manifests[t.disk.current];
    assert OpenInv(t.disk, t.hist, m);
  }
}
