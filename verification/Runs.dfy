/** Whole runs: every reachable state keeps the invariant, and what that means to readers and after a crash. */
module Runs {
  import opened DbFormat
  import opened Version
  import opened Storage
  import opened Builder
  import opened Reads
  import opened Database
  import opened DatabaseInvariant
  import opened Recovery
  import DbIter

  // ---------- one step ----------

  lemma WriteInv(s: State, m: Memory, a: Action)
    requires s.mode == Open(m) && OpenInv(s.disk, s.hist, m) && |m.gens| == |m.starts| > 0 && CanWrite(s, m, a)
    ensures Inv(AfterWrite(s, m, a))
  {
    hide OpenInv, Inv, AfterWrite;
    match a
    case WriteStart(entries) => WriteStartInv(s, m, entries);
    case WriteLog => WriteLogInv(s, m);
    case WriteInsert => WriteInsertInv(s, m);
    case WritePublish => WritePublishInv(s, m);
    case SwitchMemTable => SwitchMemTableInv(s, m);
  }

  lemma InstallInv(s: State, m: Memory)
    requires s.mode == Open(m) && OpenInv(s.disk, s.hist, m) && |m.gens| > 0 && CanCompact(s, m, InstallVersion)
    ensures Inv(AfterCompact(s, m, InstallVersion))
  {
    hide OpenInv, Inv, AfterCompact;
    match m.install.value.kind
    case Flushing => InstallFlushInv(s, m);
    case Moving => InstallMoveInv(s, m);
    case Compacting => InstallCompactionInv(s, m);
  }

  lemma CompactInv(s: State, m: Memory, a: Action)
    requires s.mode == Open(m) && OpenInv(s.disk, s.hist, m) && |m.gens| > 0 && CanCompact(s, m, a)
    ensures Inv(AfterCompact(s, m, a))
  {
    hide OpenInv, Inv, AfterCompact, Applied, FlushedTable, WrittenOutputs, OldestSnapshot;
    match a
    case StartFlush => StartFlushInv(s, m);
    case FinishFlush(table, level, after) => FinishFlushInv(s, m, table, level, after);
    case StartCompaction(c, t) => StartCompactionInv(s, m, c, t);
    case StartMove(c, after) => StartMoveInv(s, m, c, after);
    case AllocateOutput => AllocateOutputInv(s, m);
    case WriteOutput(n, content) => WriteOutputInv(s, m, n, content);
    case FinishCompaction(outs, after) => FinishCompactionInv(s, m, outs, after);
    case LogEdit => LogEditInv(s, m);
    case InstallVersion => InstallInv(s, m);
  }

  lemma DeleteInv(s: State, m: Memory, a: Action)
    requires s.mode == Open(m) && OpenInv(s.disk, s.hist, m) && CanDelete(s, m, a)
    ensures Inv(AfterDelete(s, m, a))
  {
    hide OpenInv, Inv, AfterDelete, Unused;
    match a
    case DeleteTable(n) => DeleteTableInv(s, m, n);
    case DeleteLog(n) => DeleteLogInv(s, m, n);
    case DeleteManifest(n) => DeleteManifestInv(s, m, n);
  }

  lemma OpenIsInv(s: State, m: Memory)
    requires s.mode == Open(m)
    ensures Inv(s) <==> OpenInv(s.disk, s.hist, m)
  {
    hide OpenInv;
  }

  /** Every action keeps the invariant. */
  lemma StepInv(s: State, a: Action)
    requires Inv(s) && Enabled(s, a)
    ensures Inv(After(s, a))
  {
    hide OpenInv, Inv, CanWrite, CanRead, CanCompact, CanDelete, CanReopen, AfterWrite, AfterRead,
         AfterCompact, AfterDelete, AfterCrash, AfterStray, AfterReopen;
    match s.mode
    case Open(m) =>
      OpenIsInv(s, m);
      if a.Crash? {
        CrashInv(s, m);
      } else if CanWrite(s, m, a) {
        WriteInv(s, m, a);
      } else if CanRead(m, a) {
        ReadInv(s, m, a);
      } else if CanCompact(s, m, a) {
        CompactInv(s, m, a);
      } else {
        DeleteInv(s, m, a);
      }
    case Closed(d) =>
      if a.Reopen? {
        ReopenInv(s, d, a);
      } else {
        StrayInv(s, d, a);
      }
  }

  // ---------- runs ----------

  ghost predicate Step(s: State, a: Action, t: State) {
    Enabled(s, a) && t == After(s, a)
  }

  /** States and the actions between them, beginning with a new database. */
  ghost predicate Run(states: seq<State>, actions: seq<Action>) {
    && |states| == |actions| + 1
    && Init(states[0])
    && forall i :: 0 <= i < |actions| ==> Step(states[i], actions[i], states[i + 1])
  }

  /** Safety over whole runs. */
  lemma {:induction false} RunInv(states: seq<State>, actions: seq<Action>, n: nat)
    requires Run(states, actions) && n < |states|
    ensures Inv(states[n])
    decreases n
  {
    hide Inv, Enabled, After, Init;
    if n == 0 {
      InitInv(states[0]);
    } else {
      RunInv(states, actions, n - 1);
      assert Step(states[n - 1], actions[n - 1], states[n]);
      StepInv(states[n - 1], actions[n - 1]);
    }
  }

  // ---------- the history ----------

  function GroupOf(s: State): seq<Entry> {
    if s.mode.Open? then InFlight(s.mode.m.group) else []
  }

  lemma WriteHistory(s: State, m: Memory, a: Action)
    requires s.mode == Open(m) && |m.gens| == |m.starts| > 0 && CanWrite(s, m, a)
    ensures AfterWrite(s, m, a).hist == s.hist + if a.WritePublish? then InFlight(m.group) else []
  {
  }

  lemma OtherHistory(s: State, m: Memory, a: Action)
    requires |m.gens| > 0
    ensures CanRead(m, a) ==> AfterRead(s, m, a).hist == s.hist
    ensures CanCompact(s, m, a) ==> AfterCompact(s, m, a).hist == s.hist
    ensures CanDelete(s, m, a) ==> AfterDelete(s, m, a).hist == s.hist
  {
    hide Applied, FlushedTable, WrittenOutputs, OldestSnapshot, Unused;
  }

  /** One action adds nothing to the history, or the whole group being written. */
  lemma StepHistory(s: State, a: Action)
    requires Enabled(s, a)
    ensures After(s, a).hist == s.hist || After(s, a).hist == s.hist + GroupOf(s)
    ensures After(s, a).hist != s.hist ==> a.WritePublish? || a.Crash?
  {
    hide CanWrite, CanRead, CanCompact, CanDelete, CanReopen, AfterWrite, AfterRead, AfterCompact, AfterDelete;
    assert s.hist + [] == s.hist;
    if s.mode.Open? {
      var m := s.mode.m;
      OtherHistory(s, m, a);
      if !a.Crash? && CanWrite(s, m, a) {
        WriteHistory(s, m, a);
      }
    }
  }

  /** What was acknowledged stays: the history at any point of a run begins the history at any later one. */
  lemma {:induction false} HistoryGrows(states: seq<State>, actions: seq<Action>, i: nat, j: nat)
    requires Run(states, actions) && i <= j < |states|
    ensures states[i].hist <= states[j].hist
    decreases j
  {
    hide Enabled, After, Init;
    if i < j {
      HistoryGrows(states, actions, i, j - 1);
      assert Step(states[j - 1], actions[j - 1], states[j]);
      StepHistory(states[j - 1], actions[j - 1]);
    }
  }

  /** A crash leaves the acknowledged history, and the group in flight either whole, if its record had
      reached the log, or not at all. */
  lemma CrashHistory(s: State, m: Memory)
    requires s.mode == Open(m) && OpenInv(s.disk, s.hist, m)
    ensures var t := AfterCrash(s, m);
      && t.disk == s.disk
      && t.hist == s.hist + (if m.group.Some? && m.group.value.logged then m.group.value.entries else [])
      && Recoverable(t.disk, t.hist, t.mode.d)
  {
    hide Recoverable, MemOk, VersionOk, CompactionOk, InstallOk, NumbersOk, PinnedOk, ReadersOk, ManifestOk, LogsOk;
  }

  // ---------- reads ----------

  /** What a reader at snapshot `t` sees depends on the history up to `t` only. */
  lemma PrefixesAgree(w: seq<Entry>, a: nat, b: nat, user: UserKey, t: nat)
    requires History(w) && t <= a <= |w| && t <= b <= |w|
    ensures Lookup(w[..a], user, t) == Lookup(w[..b], user, t)
  {
    if a <= b {
      assert w[..b] == w[..a] + w[a..b];
      LookupIgnoresLater(w[..a], w[a..b], user, t);
    } else {
      PrefixesAgree(w, b, a, user, t);
    }
  }

  /** A read in progress answers as the history does at its snapshot, whatever other threads have done since
      the reader pinned its memtables and version.  `mem` and `imm` are the pinned memtables in the order of
      their skip lists. */
  method Read(s: State, m: Memory, id: nat, mem: seq<Entry>, imm: Option<seq<Entry>>) returns (r: Option<Val>)
    requires s.mode == Open(m) && OpenInv(s.disk, s.hist, m) && id in m.readers
    requires ReaderMem(m, m.readers[id], mem, imm)
    ensures r == Lookup(s.hist, m.readers[id].user, m.readers[id].snapshot)
  {
    var reader := m.readers[id];
    ghost var w := s.hist + InFlight(m.group);
    ghost var p, q, e := ReadView(s, m, id, mem, imm);
    r := Reads.Get(mem, imm, reader.levels, reader.user, reader.snapshot, w[..e], p, q);
    PrefixesAgree(w, e, |s.hist|, reader.user, reader.snapshot);
    assert w[..|s.hist|] == s.hist;
  }

  ghost predicate SortedCopy(mem: seq<Entry>, gen: seq<Entry>) {
    Sorted(mem) && SameEntries(mem, gen)
  }

  ghost predicate ReaderMem(m: Memory, r: Reader, mem: seq<Entry>, imm: Option<seq<Entry>>) {
    && r.mem < |m.gens|
    && SortedCopy(mem, m.gens[r.mem])
    && (imm.Some? <==> r.imm)
    && (imm.Some? ==> r.mem > 0 && SortedCopy(imm.value, m.gens[r.mem - 1]))
  }

  lemma GenMemTable(w: seq<Entry>, gens: seq<seq<Entry>>, starts: seq<nat>, g: nat, mem: seq<Entry>, e: nat)
    requires History(w) && Slices(w, gens, starts) && g < |gens| && SortedCopy(mem, gens[g])
    requires starts[g] + |gens[g]| <= e <= |w|
    ensures MemTable(mem, w[..e], starts[g], starts[g] + |gens[g]|)
  {
    var end := starts[g] + |gens[g]|;
    assert w[..e][..end] == w[..end];
    forall x ensures x in mem <==> Recorded(w[..e], x) && starts[g] < x.key.sn <= end {
      SliceEntries(w, starts[g], end, x);
    }
  }

  /** The part of the history that a reader's memtables and version stand for. */
  lemma ReadView(s: State, m: Memory, id: nat, mem: seq<Entry>, imm: Option<seq<Entry>>)
    returns (p: nat, q: nat, e: nat)
    requires s.mode == Open(m) && OpenInv(s.disk, s.hist, m) && id in m.readers
    requires ReaderMem(m, m.readers[id], mem, imm)
    ensures var w := s.hist + InFlight(m.group);
      var r := m.readers[id];
      && History(w)
      && r.snapshot <= |s.hist| && r.snapshot <= e <= |w|
      && p <= q <= e
      && MemTable(mem, w[..e], q, e)
      && (if imm.Some? then MemTable(imm.value, w[..e], p, q) else p == q)
      && Stores(r.levels, w[..e][..p], r.snapshot)
  {
    hide Stores, OpenInv, MemTable, ReaderMem, SortedCopy, History, Slices;
    var w := s.hist + InFlight(m.group);
    var r := m.readers[id];
    ReaderFacts(s, m, id);
    ReaderSlices(w, m.gens, m.starts, r);
    PinnedMems(m, r, mem, imm);
    q := m.starts[r.mem];
    e := q + |m.gens[r.mem]|;
    p := ReaderPoint(m.starts, r);
    assert w[..e][..p] == s.hist[..p];
    GenMemTable(w, m.gens, m.starts, r.mem, mem, e);
    if imm.Some? {
      GenMemTable(w, m.gens, m.starts, r.mem - 1, imm.value, e);
    }
  }

  lemma ReaderFacts(s: State, m: Memory, id: nat)
    requires OpenInv(s.disk, s.hist, m) && id in m.readers
    ensures History(s.hist + InFlight(m.group)) && Slices(s.hist + InFlight(m.group), m.gens, m.starts)
    ensures ReaderOk(s.hist, m.gens, m.starts, m.readers[id])
  {
    hide Stores, VersionOk, CompactionOk, InstallOk, NumbersOk, PinnedOk, DiskOk, ReaderOk, History, Slices;
  }

  lemma ReaderSlices(w: seq<Entry>, gens: seq<seq<Entry>>, starts: seq<nat>, r: Reader)
    requires Slices(w, gens, starts) && r.mem < |gens| && (r.imm ==> r.mem > 0)
    ensures starts[r.mem] + |gens[r.mem]| <= |w|
    ensures r.imm ==> starts[r.mem - 1] + |gens[r.mem - 1]| == starts[r.mem]
  {
  }

  lemma PinnedMems(m: Memory, r: Reader, mem: seq<Entry>, imm: Option<seq<Entry>>)
    requires ReaderMem(m, r, mem, imm)
    ensures r.mem < |m.gens| && SortedCopy(mem, m.gens[r.mem]) && (imm.Some? <==> r.imm)
    ensures imm.Some? ==> r.mem > 0 && SortedCopy(imm.value, m.gens[r.mem - 1])
  {
  }

  /** A lookup at a snapshot gives the same answer at every later point of a run. */
  lemma PinnedForever(states: seq<State>, actions: seq<Action>, i: nat, j: nat, user: UserKey, t: nat)
    requires Run(states, actions) && i <= j < |states| && t <= |states[i].hist|
    ensures Lookup(states[j].hist, user, t) == Lookup(states[i].hist, user, t)
  {
    hide Inv, Enabled, After, Init;
    HistoryGrows(states, actions, i, j);
    RunInv(states, actions, j);
    InvHistory(states[j]);
    var h := states[j].hist;
    PrefixesAgree(h, |states[i].hist|, |h|, user, t);
    assert h[..|h|] == h && h[..|states[i].hist|] == states[i].hist;
  }

  // ---------- reads in whole runs ----------

  /** Whenever a run has a reader in progress, what it has pinned answers as the history does at its snapshot: as the
      history of this state, of the state in which the snapshot was taken, and of every other state that has the
      snapshot, however long the read takes. */
  method ReadInRun(ghost states: seq<State>, ghost actions: seq<Action>, ghost j: nat, s: State, id: nat,
                   mem: seq<Entry>, imm: Option<seq<Entry>>)
    returns (r: Option<Val>)
    requires Run(states, actions) && j < |states| && s == states[j]
    requires s.mode.Open? && id in s.mode.m.readers && ReaderMem(s.mode.m, s.mode.m.readers[id], mem, imm)
    ensures var reader := s.mode.m.readers[id];
      && reader.snapshot <= |s.hist|
      && (forall i :: 0 <= i < |states| && reader.snapshot <= |states[i].hist| ==>
            r == Lookup(states[i].hist, reader.user, reader.snapshot))
  {
    hide Inv, OpenInv, ReaderMem, Run, Lookup;
    RunInv(states, actions, j);
    OpenIsInv(s, s.mode.m);
    ReaderFacts(s, s.mode.m, id);
    r := Read(s, s.mode.m, id, mem, imm);
    ghost var reader := s.mode.m.readers[id];
    forall i | 0 <= i < |states| && reader.snapshot <= |states[i].hist|
      ensures r == Lookup(states[i].hist, reader.user, reader.snapshot)
    {
      if i <= j {
        PinnedForever(states, actions, i, j, reader.user, reader.snapshot);
      } else {
        PinnedForever(states, actions, j, i, reader.user, reader.snapshot);
      }
    }
  }

  /** What was acknowledged by state `i` is what a read at any later time returns, whatever crashes and reopenings lie
      between, unless its snapshot has a newer write to the key. */
  method ReadAcknowledged(ghost states: seq<State>, ghost actions: seq<Action>, ghost i: nat, ghost j: nat, s: State,
                          id: nat, mem: seq<Entry>, imm: Option<seq<Entry>>)
    returns (r: Option<Val>)
    requires Run(states, actions) && i <= j < |states| && s == states[j]
    requires s.mode.Open? && id in s.mode.m.readers && ReaderMem(s.mode.m, s.mode.m.readers[id], mem, imm)
    requires |states[i].hist| <= s.mode.m.readers[id].snapshot <= |s.hist|
    requires forall k :: |states[i].hist| <= k < s.mode.m.readers[id].snapshot ==>
      s.hist[k].key.user != s.mode.m.readers[id].user
    ensures r == Lookup(states[i].hist, s.mode.m.readers[id].user, |states[i].hist|)
  {
    hide Inv, Run, ReaderMem, Lookup;
    r := ReadInRun(states, actions, j, s, id, mem, imm);
    HistoryGrows(states, actions, i, j);
    RunInv(states, actions, j);
    InvHistory(s);
    NothingNewer(s.hist, |states[i].hist|, s.mode.m.readers[id].user, s.mode.m.readers[id].snapshot);
    assert s.hist[..|states[i].hist|] == states[i].hist;
  }

  lemma NothingNewer(h: seq<Entry>, n: nat, user: UserKey, t: nat)
    requires History(h) && n <= t <= |h| && forall k :: n <= k < t ==> h[k].key.user != user
    ensures Lookup(h, user, t) == Lookup(h[..n], user, n)
  {
    forall k | n <= k < |h| ensures !Matches(h[k], user, t) {
    }
    LookupSkips(h, n, user, t);
    LookupFarther(h[..n], user, n, t);
  }

  /** A snapshot after the end of the history sees all of it. */
  lemma {:induction false} LookupFarther(h: seq<Entry>, user: UserKey, s: nat, t: nat)
    requires History(h) && |h| <= s && |h| <= t
    ensures Lookup(h, user, s) == Lookup(h, user, t)
    decreases |h|
  {
    if h != [] {
      LookupFarther(h[..|h| - 1], user, s, t);
    }
  }

  /** What an iterator made in a run shows is what the history shows at its snapshot, key by key: `es` merges the
      memtables and the version that it has pinned. */
  lemma ScanInRun(states: seq<State>, actions: seq<Action>, j: nat, m: Memory, id: nat, mem: seq<Entry>,
                  imm: Option<seq<Entry>>, es: seq<Entry>, user: UserKey, v: Val)
    requires Run(states, actions) && j < |states| && states[j].mode == Open(m) && id in m.readers
    requires ReaderMem(m, m.readers[id], mem, imm)
    requires Sorted(es)
    requires forall e :: e in es <==> Has(m.readers[id].levels, e) || e in mem || (imm.Some? && e in imm.value)
    ensures var live := DbIter.Live(es, m.readers[id].snapshot);
      (exists k :: 0 <= k < |live| && live[k].key.user == user && live[k].val == v) <==>
      Lookup(states[j].hist, user, m.readers[id].snapshot) == Some(v)
  {
    hide Inv, OpenInv, Run, ReaderMem, Has, Sorted, Stores, History, Lookup, DbIter.Live;
    var s, r := states[j], m.readers[id];
    RunInv(states, actions, j);
    OpenIsInv(s, m);
    var w := s.hist + InFlight(m.group);
    var p, q, e := ReadView(s, m, id, mem, imm);
    HistoryPrefix(w, e);
    MemTablesHold(mem, imm, w[..e], p, q);
    DbIter.ScanIsHistory(es, r.levels, w[..e], p, r.snapshot, user, v);
    PrefixesAgree(w, e, |s.hist|, user, r.snapshot);
    assert w[..|s.hist|] == s.hist;
  }

  lemma HistoryPrefix(w: seq<Entry>, e: nat)
    requires History(w) && e <= |w|
    ensures History(w[..e])
  {
  }

  lemma MemTablesHold(mem: seq<Entry>, imm: Option<seq<Entry>>, h: seq<Entry>, p: nat, q: nat)
    requires History(h) && p <= q <= |h| && MemTable(mem, h, q, |h|)
    requires if imm.Some? then MemTable(imm.value, h, p, q) else p == q
    ensures forall e :: (e in mem || (imm.Some? && e in imm.value)) <==> Recorded(h, e) && e.key.sn > p
  {
  }

  lemma InvHistory(s: State)
    requires Inv(s)
    ensures History(s.hist)
  {
    match s.mode
    case Open(m) =>
      hide VersionOk, CompactionOk, InstallOk, NumbersOk, PinnedOk, DiskOk, ReadersOk;
      forall i | 0 <= i < |s.hist| ensures s.hist[i].key.sn == i + 1 {
        assert (s.hist + InFlight(m.group))[i] == s.hist[i];
      }
    case Closed(d) =>
  }

  /** Files that a reader, the current version or a running compaction refers to are on disk and intact in
      every reachable state: no deletion ever takes one away. */
  lemma PinnedFilesOnDisk(states: seq<State>, actions: seq<Action>, i: nat, v: Levels, l: nat, f: File)
    requires Run(states, actions) && i < |states| && states[i].mode.Open? && Pinned(states[i].mode.m, v)
    requires l < |v| && f in v[l]
    ensures f.number in states[i].disk.tables && states[i].disk.tables[f.number] == f.entries
  {
    hide Inv, Enabled, After, Init, MemOk, VersionOk, CompactionOk, InstallOk, NumbersOk, DiskOk, ReadersOk, Pinned;
    RunInv(states, actions, i);
    OpenIsInv(states[i], states[i].mode.m);
    assert PinOk(states[i].disk.tables, states[i].mode.m, v);
  }
}
