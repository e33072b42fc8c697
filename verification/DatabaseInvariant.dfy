/** What every action of the state machine keeps. */
module DatabaseInvariant {
  import opened DbFormat
  import opened Version
  import opened Storage
  import opened Compaction
  import opened InputSelection
  import opened Builder
  import opened Database

  // ---------- memory ----------

  /** Each memtable holds a slice of the history, the next one starting where it ends. */
  ghost predicate Slices(w: seq<Entry>, gens: seq<seq<Entry>>, starts: seq<nat>) {
    && |gens| == |starts| > 0
    && (forall g :: 0 <= g < |gens| ==>
          starts[g] + |gens[g]| <= |w| && gens[g] == w[starts[g]..starts[g] + |gens[g]|])
    && (forall g :: 0 <= g < |gens| - 1 ==> starts[g + 1] == starts[g] + |gens[g]|)
  }

  ghost predicate GroupOk(group: Option<Group>) {
    group.Some? ==>
      group.value.inserted <= |group.value.entries| && (group.value.inserted > 0 ==> group.value.logged)
  }

  ghost predicate MemOk(h: seq<Entry>, group: Option<Group>, gens: seq<seq<Entry>>, starts: seq<nat>, imm: bool,
                        lastSeq: nat)
  {
    && Slices(h + InFlight(group), gens, starts)
    && History(h + InFlight(group))
    && |h + InFlight(group)| < MAX_SEQUENCE
    && (imm ==> |gens| > 1)
    && lastSeq == |h|
    && starts[|starts| - 1] <= |h|
    && starts[|starts| - 1] + |gens[|gens| - 1]| == |h| + Inserted(group)
    && GroupOk(group)
  }

  ghost predicate SnapshotsFrom(snapshots: multiset<nat>, floor: nat) {
    forall t :: t in snapshots ==> floor <= t
  }

  ghost predicate SnapshotsUpTo(snapshots: multiset<nat>, last: nat) {
    forall t :: t in snapshots ==> t <= last
  }

  ghost predicate VersionOk(h: seq<Entry>, point: nat, levels: Levels, floor: nat, snapshots: multiset<nat>) {
    && point <= |h|
    && floor <= |h|
    && Stores(levels, h[..point], floor)
    && SnapshotsFrom(snapshots, floor)
    && SnapshotsUpTo(snapshots, |h|)
  }

  ghost predicate CompactionOk(h: seq<Entry>, levels: Levels, snapshots: multiset<nat>, compaction: Option<Running>) {
    compaction.Some? ==>
      && Ready(levels, compaction.value.base, compaction.value.c)
      && compaction.value.smallestSnapshot <= |h|
      && SnapshotsFrom(snapshots, compaction.value.smallestSnapshot)
  }

  ghost predicate NoneUsed(numbers: set<nat>, v: Levels) {
    forall n :: n in numbers ==> !UsesNumber(v, n)
  }

  ghost predicate FlushInstall(h: seq<Entry>, m: Memory, meta: Meta, after: Levels) {
    && m.imm
    && m.flush.None?
    && meta.log == m.logNumber
    && MemStart(m) <= meta.last
    && MemStart(m) <= |h|
    && Stores(after, h[..MemStart(m)], m.floor)
    && NoneUsed(m.pending, after)
    && (m.compaction.Some? ==> Ready(after, m.compaction.value.base, m.compaction.value.c))
  }

  function Later(a: nat, b: nat): nat {
    if a < b then b else a
  }

  ghost predicate CompactInstall(h: seq<Entry>, m: Memory, meta: Meta, after: Levels) {
    && m.compaction.Some?
    && m.flush.None?
    && meta.log == m.versionLog
    && Point(m) <= meta.last
    && Point(m) <= |h|
    && Stores(after, h[..Point(m)], Later(m.floor, m.compaction.value.smallestSnapshot))
  }

  ghost predicate MoveInstall(h: seq<Entry>, m: Memory, meta: Meta, after: Levels) {
    && m.compaction.None?
    && m.flush.None?
    && meta.log == m.versionLog
    && Point(m) <= meta.last
    && Point(m) <= |h|
    && Stores(after, h[..Point(m)], m.floor)
  }

  ghost predicate InstallFits(h: seq<Entry>, m: Memory, kind: Kind, meta: Meta, after: Levels) {
    match kind
    case Flushing => FlushInstall(h, m, meta, after)
    case Compacting => CompactInstall(h, m, meta, after)
    case Moving => MoveInstall(h, m, meta, after)
  }

  ghost predicate InstallOk(h: seq<Entry>, m: Memory, tables: map<nat, seq<Entry>>) {
    m.install.Some? ==>
      var i := m.install.value;
      && i.edit.meta.Some?
      && i.edit.meta.value.next <= m.nextFile
      && i.edit.meta.value.last <= |h|
      && Applied(m.levels, i.edit.files, i.after)
      && Fresh(i.after, i.edit.meta.value.next)
      && TablesHold(tables, i.after)
      && InstallFits(h, m, i.kind, i.edit.meta.value, i.after)
  }

  function CompactionNumbers(m: Memory): set<nat> {
    if m.compaction.Some? then m.compaction.value.numbers else {}
  }

  function FlushNumber(m: Memory): set<nat> {
    if m.flush.Some? then {m.flush.value} else {}
  }

  ghost predicate NumbersOk(m: Memory) {
    && AllBelow(m.pending, m.nextFile)
    && m.pending == CompactionNumbers(m) + FlushNumber(m)
    && CompactionNumbers(m) !! FlushNumber(m)
    && m.versionLog <= m.logNumber < m.nextFile
    && (!m.imm ==> m.versionLog == m.logNumber)
    && (m.flush.Some? ==> m.imm && Fresh(m.levels, m.flush.value))
  }

  /** Every file of the version is on disk with its entries. */
  ghost predicate TablesHold(tables: map<nat, seq<Entry>>, v: Levels) {
    forall l, f :: 0 <= l < |v| && f in v[l] ==> f.number in tables && tables[f.number] == f.entries
  }

  ghost predicate PinOk(tables: map<nat, seq<Entry>>, m: Memory, v: Levels) {
    Fresh(v, m.nextFile) && NoneUsed(m.pending, v) && TablesHold(tables, v)
  }

  ghost predicate PinnedOk(tables: map<nat, seq<Entry>>, m: Memory) {
    forall v :: Pinned(m, v) ==> PinOk(tables, m, v)
  }

  function ReaderPoint(starts: seq<nat>, r: Reader): nat
    requires r.mem < |starts| && (r.imm ==> r.mem > 0)
  {
    if r.imm then starts[r.mem - 1] else starts[r.mem]
  }

  ghost predicate ReaderOk(h: seq<Entry>, gens: seq<seq<Entry>>, starts: seq<nat>, r: Reader) {
    && |gens| == |starts|
    && r.mem < |gens|
    && (r.imm ==> r.mem > 0)
    && ReaderPoint(starts, r) <= |h|
    && Stores(r.levels, h[..ReaderPoint(starts, r)], r.snapshot)
    && r.snapshot <= |h|
    && r.snapshot <= starts[r.mem] + |gens[r.mem]|
  }

  ghost predicate ReadersOk(h: seq<Entry>, gens: seq<seq<Entry>>, starts: seq<nat>, readers: map<nat, Reader>) {
    forall id :: id in readers ==> ReaderOk(h, gens, starts, readers[id])
  }

  // ---------- disk ----------

  ghost predicate LogsOk(logs: map<nat, Log>, w: seq<Entry>, m: Memory) {
    && m.logNumber in logs
    && (forall k :: k in logs ==> k <= m.logNumber)
    && MemStart(m) <= |w| && Point(m) <= |w|
    && Tail(logs, m.logNumber, m.nextFile) == w[MemStart(m)..]
    && Tail(logs, m.versionLog, m.nextFile) == w[Point(m)..]
  }

  /** Files only descend: a number that was ever added to a level is now at that level or below it. */
  ghost predicate Descending(edits: seq<FileEdit>, v: Levels) {
    forall l, g, k, f :: 0 <= l < NUM_LEVELS && g in ApplyAll(edits, l).added && 0 <= k < |v| && f in v[k] ==>
      (f.number == g.number ==> l <= k)
  }

  /** Numbers once added, as opposed to those that may still be used for new files. */
  ghost predicate AddedBelow(edits: seq<FileEdit>, next: nat, open: set<nat>) {
    forall l, g :: 0 <= l < NUM_LEVELS && g in ApplyAll(edits, l).added ==> g.number < next && g.number !in open
  }

  /** The edit can go to the manifest: it adds only numbers that were at most at shallower levels. */
  ghost predicate EditDescends(edits: seq<FileEdit>, e: FileEdit) {
    && (forall i :: 0 <= i < |e.added| ==> e.added[i].0 < NUM_LEVELS)
    && (forall i, l, g :: 0 <= i < |e.added| && 0 <= l < NUM_LEVELS && g in ApplyAll(edits, l).added ==>
          (g.number == e.added[i].1.number ==> l < e.added[i].0))
    && (forall i, j :: 0 <= i < j < |e.added| ==> e.added[i].1.number != e.added[j].1.number)
    && (forall i :: 0 <= i < |e.added| ==> (e.added[i].0, e.added[i].1.number) !in e.deleted)
  }

  /** The manifest `edits` and the rest of the disk stand for the history `w`. */
  ghost predicate Stands(disk: Disk, edits: seq<Edit>, w: seq<Entry>, d: Durable) {
    && LastMeta(edits) == Some(d.meta)
    && Built(EMPTY, FileEdits(edits), d.levels)
    && d.point <= |w|
    && Stores(d.levels, w[..d.point], |w|)
    && AllBelow(disk.logs.Keys, d.bound)
    && Tail(disk.logs, d.meta.log, d.bound) == w[d.point..]
    && d.point <= d.meta.last <= |w|
    && disk.current < d.meta.next
    && TablesHold(disk.tables, d.levels)
    && Fresh(d.levels, d.meta.next)
  }

  ghost predicate Recoverable(disk: Disk, w: seq<Entry>, d: Durable) {
    && disk.current in disk.manifests
    && Stands(disk, disk.manifests[disk.current], w, d)
  }

  function OpenNumbers(m: Memory): set<nat> {
    if m.install.Some? && m.install.value.kind.Compacting? then {} else m.pending
  }

  ghost predicate ManifestOk(edits: seq<Edit>, m: Memory) {
    && Descending(FileEdits(edits), if Logged(m) then m.install.value.after else m.levels)
    && AddedBelow(FileEdits(edits), m.nextFile, OpenNumbers(m))
    && (m.install.Some? && !m.install.value.logged ==> EditDescends(FileEdits(edits), m.install.value.edit.files))
    && LastMeta(edits).Some?
    && LastMeta(edits).value.next <= m.nextFile
    && LastMeta(edits).value.last <= m.lastSeq
    && (if Logged(m) then LastMeta(edits) == m.install.value.edit.meta else LastMeta(edits).value.log == m.versionLog)
  }

  ghost predicate DiskOk(disk: Disk, h: seq<Entry>, m: Memory) {
    && disk.current in disk.manifests
    && (m.install.Some? && m.install.value.edit.meta.Some? ==> disk.current < m.install.value.edit.meta.value.next)
    && ManifestOk(disk.manifests[disk.current], m)
    && LogsOk(disk.logs, h + OnDisk(m.group), m)
    && Recoverable(disk, h + OnDisk(m.group), DurableNow(disk, m))
  }

  ghost predicate MemFits(h: seq<Entry>, m: Memory) {
    MemOk(h, m.group, m.gens, m.starts, m.imm, m.lastSeq)
  }

  ghost predicate OpenInv(disk: Disk, h: seq<Entry>, m: Memory) {
    && MemFits(h, m)
    && VersionOk(h, Point(m), m.levels, m.floor, m.snapshots)
    && CompactionOk(h, m.levels, m.snapshots, m.compaction)
    && InstallOk(h, m, disk.tables)
    && NumbersOk(m)
    && PinnedOk(disk.tables, m)
    && ReadersOk(h, m.gens, m.starts, m.readers)
    && DiskOk(disk, h, m)
  }

  ghost predicate Inv(s: State) {
    match s.mode
    case Open(m) => OpenInv(s.disk, s.hist, m)
    case Closed(d) => History(s.hist) && |s.hist| < MAX_SEQUENCE && Recoverable(s.disk, s.hist, d)
  }

  // ---------- logs ----------

  lemma {:induction false} TailSame(logs: map<nat, Log>, other: map<nat, Log>, from: nat, end: nat)
    requires forall k :: from <= k < end ==> (k in logs <==> k in other) && (k in logs ==> logs[k] == other[k])
    ensures Tail(logs, from, end) == Tail(other, from, end)
    decreases end
  {
    if from < end {
      TailSame(logs, other, from, end - 1);
    }
  }

  lemma {:induction false} TailBeyond(logs: map<nat, Log>, from: nat, mid: nat, end: nat)
    requires mid <= end && forall k :: k in logs ==> k < mid
    ensures Tail(logs, from, end) == Tail(logs, from, mid)
    decreases end
  {
    if mid < end {
      TailBeyond(logs, from, mid, end - 1);
    }
  }

  lemma FlatOne(log: Log, record: seq<Entry>)
    ensures Flat(log + [record]) == Flat(log) + record
  {
    assert (log + [record])[..|log|] == log;
  }

  /** Appending to the newest log appends to the tail. */
  lemma TailAppend(logs: map<nat, Log>, n: nat, record: seq<Entry>, from: nat, end: nat)
    requires n in logs && (forall k :: k in logs ==> k <= n) && from <= n < end
    ensures Tail(logs[n := logs[n] + [record]], from, end) == Tail(logs, from, end) + record
  {
    var after := logs[n := logs[n] + [record]];
    TailBeyond(logs, from, n + 1, end);
    TailBeyond(after, from, n + 1, end);
    TailSame(logs, after, from, n);
    FlatOne(logs[n], record);
  }

  /** A new log is empty. */
  lemma TailNew(logs: map<nat, Log>, n: nat, from: nat)
    requires forall k :: k in logs ==> k < n
    ensures Tail(logs[n := []], from, n + 1) == Tail(logs, from, n)
    ensures Tail(logs[n := []], n, n + 1) == []
  {
    TailSame(logs, logs[n := []], from, n);
  }

  // ---------- the first state ----------

  lemma EmptyStores(v: Levels)
    requires |v| == NUM_LEVELS && forall l :: 0 <= l < NUM_LEVELS ==> v[l] == []
    ensures Stores(v, [], 0)
  {
    assert forall e :: !Has(v, e);
    hide Has;
    assert Ordered(v);
  }

  lemma InitInv(s: State)
    requires Init(s)
    ensures Inv(s)
  {
    var edits := s.disk.manifests[1];
    EmptyStores(EMPTY);
    assert FileEdits(edits) == [FileEdit({}, [])];
    assert FileEdits(edits)[..0] == [];
    forall l | 0 <= l < NUM_LEVELS ensures ApplyAll(FileEdits(edits), l) == LevelState({}, []) {
      assert ApplyAll([], l) == LevelState({}, []);
    }
  }

  // ---------- what does not depend on what ----------

  lemma InstallFrame(h: seq<Entry>, m: Memory, tables: map<nat, seq<Entry>>, h': seq<Entry>, m': Memory)
    requires InstallOk(h, m, tables) && h <= h'
    requires m'.install == m.install && m'.levels == m.levels && m.nextFile <= m'.nextFile
    requires m'.flush == m.flush && m'.compaction == m.compaction && m'.pending == m.pending
    requires m'.floor == m.floor && m'.versionLog == m.versionLog && Point(m') == Point(m)
    requires m.imm ==> m'.imm && MemStart(m') == MemStart(m) && m'.logNumber == m.logNumber
    ensures InstallOk(h', m', tables)
  {
    if m.install.Some? {
      if MemStart(m) <= |h| {
        assert h'[..MemStart(m)] == h[..MemStart(m)];
      }
      if Point(m) <= |h| {
        assert h'[..Point(m)] == h[..Point(m)];
      }
    }
  }

  lemma PinnedFrame(tables: map<nat, seq<Entry>>, m: Memory, m': Memory)
    requires PinnedOk(tables, m)
    requires m'.levels == m.levels && m'.readers == m.readers && m'.compaction == m.compaction
    requires m'.pending == m.pending && m.nextFile <= m'.nextFile
    ensures PinnedOk(tables, m')
  {
    forall v | Pinned(m', v) ensures PinOk(tables, m', v) {
      assert Pinned(m, v);
      assert PinOk(tables, m, v);
    }
  }

  lemma VersionFrame(h: seq<Entry>, point: nat, levels: Levels, floor: nat, snapshots: multiset<nat>, h': seq<Entry>)
    requires VersionOk(h, point, levels, floor, snapshots) && h <= h'
    ensures VersionOk(h', point, levels, floor, snapshots)
  {
    assert h'[..point] == h[..point];
  }

  /** Memtables may grow and new ones may come: pinned reads go on. */
  lemma ReadersFrame(h: seq<Entry>, m: Memory, h': seq<Entry>, m': Memory)
    requires ReadersOk(h, m.gens, m.starts, m.readers) && h <= h' && m'.readers == m.readers
    requires m.starts <= m'.starts && |m'.gens| == |m'.starts|
    requires |m.gens| <= |m'.gens| && forall g :: 0 <= g < |m.gens| ==> |m.gens[g]| <= |m'.gens[g]|
    ensures ReadersOk(h', m'.gens, m'.starts, m'.readers)
  {
    hide Stores;
    forall id | id in m.readers ensures ReaderOk(h', m'.gens, m'.starts, m.readers[id]) {
      var r := m.readers[id];
      assert ReaderOk(h, m.gens, m.starts, r);
      assert h'[..ReaderPoint(m.starts, r)] == h[..ReaderPoint(m.starts, r)];
    }
  }

  /** The disk does not care about what is in memory only. */
  lemma DiskFrame(disk: Disk, h: seq<Entry>, m: Memory, h': seq<Entry>, m': Memory)
    requires DiskOk(disk, h, m)
    requires h' + OnDisk(m'.group) == h + OnDisk(m.group)
    requires m'.install == m.install && m'.levels == m.levels && m'.nextFile == m.nextFile
    requires m'.pending == m.pending && m'.versionLog == m.versionLog && m'.logNumber == m.logNumber
    requires m'.starts == m.starts && m'.imm == m.imm && m.lastSeq <= m'.lastSeq
    ensures DiskOk(disk, h', m')
  {
    assert DurableNow(disk, m') == DurableNow(disk, m);
  }

  // ---------- writers ----------

  lemma MemShape(h: seq<Entry>, m: Memory)
    requires MemFits(h, m)
    ensures |m.gens| == |m.starts| > 0 && m.lastSeq == |h| && (m.imm ==> |m.gens| > 1)
    ensures Point(m) <= MemStart(m) <= |h|
    ensures m.starts[|m.starts| - 1] + |m.gens[|m.gens| - 1]| >= |h|
  {
  }

  lemma MemWriteStart(h: seq<Entry>, m: Memory, entries: seq<Entry>)
    requires MemFits(h, m) && m.group.None?
    requires Numbered(entries, m.lastSeq + 1) && m.lastSeq + |entries| < MAX_SEQUENCE
    ensures MemFits(h, m.(group := Some(Group(entries, false, 0))))
  {
    hide Slices, History, Numbered;
    assert h + [] == h;
    HistoryMore(h, entries);
    SlicesMore(h, entries, m.gens, m.starts);
  }

  lemma HistoryMore(h: seq<Entry>, entries: seq<Entry>)
    requires History(h) && Numbered(entries, |h| + 1)
    ensures History(h + entries)
  {
  }

  lemma SlicesMore(h: seq<Entry>, entries: seq<Entry>, gens: seq<seq<Entry>>, starts: seq<nat>)
    requires Slices(h, gens, starts)
    ensures Slices(h + entries, gens, starts)
  {
    forall g | 0 <= g < |gens| ensures gens[g] == (h + entries)[starts[g]..starts[g] + |gens[g]|] {
    }
  }

  lemma MemInsert(h: seq<Entry>, m: Memory)
    requires MemFits(h, m) && m.group.Some? && m.group.value.logged
    requires m.group.value.inserted < |m.group.value.entries|
    ensures var g := m.group.value;
      MemFits(h, m.(gens := AppendMem(m.gens, g.entries[g.inserted]),
                    group := Some(g.(inserted := g.inserted + 1))))
  {
    hide Slices, History;
    var g := m.group.value;
    SlicesInsert(h + g.entries, m.gens, m.starts, g.entries[g.inserted]);
  }

  /** The last memtable takes the next entry of the history. */
  lemma SlicesInsert(w: seq<Entry>, gens: seq<seq<Entry>>, starts: seq<nat>, e: Entry)
    requires Slices(w, gens, starts)
    requires var end := starts[|starts| - 1] + |gens[|gens| - 1]|; end < |w| && w[end] == e
    ensures Slices(w, AppendMem(gens, e), starts)
    ensures |AppendMem(gens, e)| == |gens| && |AppendMem(gens, e)[|gens| - 1]| == |gens[|gens| - 1]| + 1
  {
    var last := |gens| - 1;
    var start := starts[last];
    assert w[start..start + |gens[last]| + 1] == gens[last] + [e];
  }

  lemma MemPublish(h: seq<Entry>, m: Memory)
    requires MemFits(h, m) && m.group.Some? && m.group.value.inserted == |m.group.value.entries|
    ensures var g := m.group.value;
      MemFits(h + g.entries, m.(lastSeq := m.lastSeq + |g.entries|, group := None))
  {
    assert h + m.group.value.entries + [] == h + m.group.value.entries;
  }

  lemma MemSwitch(h: seq<Entry>, m: Memory, n: nat, k: nat)
    requires MemFits(h, m) && m.group.None?
    ensures MemFits(h, m.(gens := m.gens + [[]], starts := m.starts + [m.lastSeq], imm := true,
                          logNumber := n, nextFile := k))
  {
    assert h + [] == h;
    SlicesSwitch(h, m.gens, m.starts);
    hide Slices, History;
  }

  lemma SlicesSwitch(w: seq<Entry>, gens: seq<seq<Entry>>, starts: seq<nat>)
    requires Slices(w, gens, starts) && starts[|starts| - 1] + |gens[|gens| - 1]| == |w|
    ensures Slices(w, gens + [[]], starts + [|w|])
  {
  }

  lemma WriteStartInv(s: State, m: Memory, entries: seq<Entry>)
    requires OpenInv(s.disk, s.hist, m) && CanWrite(s, m, WriteStart(entries))
    ensures Inv(AfterWrite(s, m, WriteStart(entries)))
  {
    hide MemOk, Stores, Ready, InstallFits, TablesHold, PinOk, ReaderOk, ManifestOk, LogsOk, Recoverable;
    var m' := m.(group := Some(Group(entries, false, 0)));
    MemWriteStart(s.hist, m, entries);
    InstallFrame(s.hist, m, s.disk.tables, s.hist, m');
    PinnedFrame(s.disk.tables, m, m');
    DiskFrame(s.disk, s.hist, m, s.hist, m');
  }

  lemma WriteLogInv(s: State, m: Memory)
    requires OpenInv(s.disk, s.hist, m) && CanWrite(s, m, WriteLog)
    ensures Inv(AfterWrite(s, m, WriteLog))
  {
    hide MemOk, Stores, Ready, InstallFits, TablesHold, PinOk, ReaderOk, ManifestOk, LogsOk, Recoverable;
    var m' := m.(group := Some(m.group.value.(logged := true)));
    MemLogged(s.hist, m);
    InstallFrame(s.hist, m, s.disk.tables, s.hist, m');
    PinnedFrame(s.disk.tables, m, m');
    LogAppendDisk(s.disk, s.hist, m, m');
  }

  lemma MemLogged(h: seq<Entry>, m: Memory)
    requires MemFits(h, m) && m.group.Some?
    ensures MemFits(h, m.(group := Some(m.group.value.(logged := true))))
  {
  }

  lemma LogAppendDisk(disk: Disk, h: seq<Entry>, m: Memory, m': Memory)
    requires DiskOk(disk, h, m) && NumbersOk(m) && m.group.Some? && !m.group.value.logged
    requires InstallOk(h, m, disk.tables)
    requires m' == m.(group := Some(m.group.value.(logged := true)))
    ensures DiskOk(disk.(logs := disk.logs[m.logNumber := disk.logs[m.logNumber] + [m.group.value.entries]]), h, m')
  {
    hide Stores, TablesHold, Built, Descending, AddedBelow, EditDescends, Tail, Recoverable, InstallFits;
    var record := m.group.value.entries;
    var logs := disk.logs[m.logNumber := disk.logs[m.logNumber] + [record]];
    assert h + [] == h;
    assert DurableNow(disk.(logs := logs), m') == DurableNow(disk, m);
    LogAppendLogs(disk.logs, h, m, m', record);
    LogAppendRecoverable(disk, h, m, record);
  }

  lemma LogAppendLogs(logs: map<nat, Log>, h: seq<Entry>, m: Memory, m': Memory, record: seq<Entry>)
    requires LogsOk(logs, h, m) && NumbersOk(m)
    requires m'.logNumber == m.logNumber && m'.nextFile == m.nextFile && m'.versionLog == m.versionLog
    requires MemStart(m') == MemStart(m) && Point(m') == Point(m)
    ensures LogsOk(logs[m.logNumber := logs[m.logNumber] + [record]], h + record, m')
  {
    hide Tail;
    TailAppend(logs, m.logNumber, record, m.logNumber, m.nextFile);
    TailAppend(logs, m.logNumber, record, m.versionLog, m.nextFile);
    assert (h + record)[MemStart(m)..] == h[MemStart(m)..] + record;
    assert (h + record)[Point(m)..] == h[Point(m)..] + record;
  }

  /** What recovery finds has the record at the end of the last log. */
  lemma LogAppendRecoverable(disk: Disk, h: seq<Entry>, m: Memory, record: seq<Entry>)
    requires Recoverable(disk, h, DurableNow(disk, m)) && LogsOk(disk.logs, h, m) && NumbersOk(m)
    requires disk.current in disk.manifests && ManifestOk(disk.manifests[disk.current], m)
    requires InstallOk(h, m, disk.tables)
    ensures Recoverable(disk.(logs := disk.logs[m.logNumber := disk.logs[m.logNumber] + [record]]), h + record,
                        DurableNow(disk, m))
  {
    hide Stores, TablesHold, Built, Descending, AddedBelow, EditDescends, Tail, Applied, Fresh;
    var d := DurableNow(disk, m);
    TailAppend(disk.logs, m.logNumber, record, d.meta.log, d.bound);
    assert (h + record)[d.point..] == h[d.point..] + record;
    assert (h + record)[..d.point] == h[..d.point];
    StoresLater(d.levels, h[..d.point], |h|, |h + record|);
  }

  lemma WriteInsertInv(s: State, m: Memory)
    requires OpenInv(s.disk, s.hist, m) && CanWrite(s, m, WriteInsert)
    ensures Inv(AfterWrite(s, m, WriteInsert))
  {
    hide MemOk, Stores, Ready, InstallFits, TablesHold, PinOk, ReaderOk, ManifestOk, LogsOk, Recoverable;
    MemShape(s.hist, m);
    var g := m.group.value;
    var m' := m.(gens := AppendMem(m.gens, g.entries[g.inserted]), group := Some(g.(inserted := g.inserted + 1)));
    MemInsert(s.hist, m);
    InstallFrame(s.hist, m, s.disk.tables, s.hist, m');
    PinnedFrame(s.disk.tables, m, m');
    DiskFrame(s.disk, s.hist, m, s.hist, m');
    ReadersFrame(s.hist, m, s.hist, m');
  }

  lemma WritePublishInv(s: State, m: Memory)
    requires OpenInv(s.disk, s.hist, m) && CanWrite(s, m, WritePublish)
    ensures Inv(AfterWrite(s, m, WritePublish))
  {
    hide MemOk, Stores, Ready, InstallFits, TablesHold, PinOk, ReaderOk, ManifestOk, LogsOk, Recoverable;
    MemShape(s.hist, m);
    var g := m.group.value;
    var h := s.hist + g.entries;
    var m' := m.(lastSeq := m.lastSeq + |g.entries|, group := None);
    assert h + [] == h;
    MemPublish(s.hist, m);
    InstallFrame(s.hist, m, s.disk.tables, h, m');
    PinnedFrame(s.disk.tables, m, m');
    DiskFrame(s.disk, s.hist, m, h, m');
    VersionFrame(s.hist, Point(m), m.levels, m.floor, m.snapshots, h);
    ReadersFrame(s.hist, m, h, m');
  }

  lemma SwitchMemTableInv(s: State, m: Memory)
    requires OpenInv(s.disk, s.hist, m) && CanWrite(s, m, SwitchMemTable)
    ensures Inv(AfterWrite(s, m, SwitchMemTable))
  {
    hide MemOk, Stores, Ready, InstallFits, TablesHold, PinOk, ReaderOk, ManifestOk, LogsOk, Recoverable;
    MemShape(s.hist, m);
    var m' := m.(gens := m.gens + [[]], starts := m.starts + [m.lastSeq], imm := true,
                 logNumber := m.nextFile, nextFile := m.nextFile + 1);
    MemSwitch(s.hist, m, m.nextFile, m.nextFile + 1);
    InstallFrame(s.hist, m, s.disk.tables, s.hist, m');
    PinnedFrame(s.disk.tables, m, m');
    SwitchDisk(s.disk, s.hist, m, m');
    ReadersFrame(s.hist, m, s.hist, m');
  }

  lemma SwitchDisk(disk: Disk, h: seq<Entry>, m: Memory, m': Memory)
    requires DiskOk(disk, h, m) && NumbersOk(m) && m.group.None? && !m.imm && m.lastSeq == |h| && |m.starts| > 0
    requires InstallOk(h, m, disk.tables)
    requires m' == m.(gens := m.gens + [[]], starts := m.starts + [m.lastSeq], imm := true,
                      logNumber := m.nextFile, nextFile := m.nextFile + 1)
    ensures DiskOk(disk.(logs := disk.logs[m.nextFile := []]), h, m')
  {
    hide Stores, TablesHold, Built, EditDescends, Descending;
    var logs := disk.logs[m.nextFile := []];
    var d := DurableNow(disk, m);
    assert h + [] == h;
    TailNew(disk.logs, m.nextFile, m.versionLog);
    assert Point(m') == Point(m);
    assert h[MemStart(m')..] == [];
    assert DurableNow(disk.(logs := logs), m') == d.(bound := m'.nextFile);
    assert d.meta.log == m.versionLog;
  }

  // ---------- readers ----------

  lemma SnapshotInv(s: State, m: Memory, snapshots: multiset<nat>)
    requires OpenInv(s.disk, s.hist, m) && forall t :: t in snapshots ==> t in m.snapshots || t == m.lastSeq
    ensures OpenInv(s.disk, s.hist, m.(snapshots := snapshots))
  {
    hide MemOk, Stores, Ready, InstallFits, TablesHold, PinOk, ReaderOk, ManifestOk, LogsOk, Recoverable;
    MemShape(s.hist, m);
    var m' := m.(snapshots := snapshots);
    InstallFrame(s.hist, m, s.disk.tables, s.hist, m');
    PinnedFrame(s.disk.tables, m, m');
    DiskFrame(s.disk, s.hist, m, s.hist, m');
  }

  lemma FinishReadInv(s: State, m: Memory, id: nat)
    requires OpenInv(s.disk, s.hist, m)
    ensures OpenInv(s.disk, s.hist, m.(readers := m.readers - {id}))
  {
    hide MemOk, Stores, Ready, InstallFits, TablesHold, PinOk, ReaderOk, ManifestOk, LogsOk, Recoverable;
    var m' := m.(readers := m.readers - {id});
    InstallFrame(s.hist, m, s.disk.tables, s.hist, m');
    DiskFrame(s.disk, s.hist, m, s.hist, m');
    forall v | Pinned(m', v) ensures PinOk(s.disk.tables, m', v) {
      assert Pinned(m, v) && PinOk(s.disk.tables, m, v);
      PinFrame(s.disk.tables, m, m', v);
    }
  }

  lemma ReadInv(s: State, m: Memory, a: Action)
    requires OpenInv(s.disk, s.hist, m) && CanRead(m, a) && |m.gens| > 0
    ensures Inv(AfterRead(s, m, a))
  {
    hide OpenInv;
    match a
    case TakeSnapshot => SnapshotInv(s, m, m.snapshots + multiset{m.lastSeq});
    case ReleaseSnapshot(t) => SnapshotInv(s, m, m.snapshots - multiset{t});
    case StartRead(id, user, t) => StartReadInv(s, m, id, Reader(user, t, |m.gens| - 1, m.imm, m.levels));
    case FinishRead(id) => FinishReadInv(s, m, id);
  }

  lemma PinFrame(tables: map<nat, seq<Entry>>, m: Memory, m': Memory, v: Levels)
    requires PinOk(tables, m, v) && m'.pending == m.pending && m.nextFile <= m'.nextFile
    ensures PinOk(tables, m', v)
  {
  }

  lemma StartReadInv(s: State, m: Memory, id: nat, r: Reader)
    requires OpenInv(s.disk, s.hist, m) && (r.snapshot == m.lastSeq || r.snapshot in m.snapshots)
    requires |m.gens| > 0 && r == Reader(r.user, r.snapshot, |m.gens| - 1, m.imm, m.levels) && id !in m.readers
    ensures OpenInv(s.disk, s.hist, m.(readers := m.readers[id := r]))
  {
    hide MemOk, Stores, Ready, InstallFits, TablesHold, PinOk, ManifestOk, LogsOk, Recoverable;
    MemShape(s.hist, m);
    var m' := m.(readers := m.readers[id := r]);
    InstallFrame(s.hist, m, s.disk.tables, s.hist, m');
    DiskFrame(s.disk, s.hist, m, s.hist, m');
    StoresLater(m.levels, s.hist[..Point(m)], m.floor, r.snapshot);
    forall v | Pinned(m', v) ensures PinOk(s.disk.tables, m', v) {
      assert Pinned(m, v) && PinOk(s.disk.tables, m, v);
      PinFrame(s.disk.tables, m, m', v);
    }
  }

  // ---------- file numbers ----------

  /** The next file number is in no version that anybody refers to. */
  lemma PinnedAllocate(tables: map<nat, seq<Entry>>, m: Memory, m': Memory)
    requires PinnedOk(tables, m)
    requires m'.levels == m.levels && m'.readers == m.readers
    requires m'.compaction.Some? <==> m.compaction.Some?
    requires m.compaction.Some? ==> m'.compaction.value.base == m.compaction.value.base
    requires m'.pending == m.pending + {m.nextFile} && m'.nextFile == m.nextFile + 1
    ensures PinnedOk(tables, m')
  {
    forall v | Pinned(m', v) ensures PinOk(tables, m', v) {
      assert Pinned(m, v) && PinOk(tables, m, v);
    }
  }

  lemma DiskAllocate(disk: Disk, h: seq<Entry>, m: Memory, m': Memory)
    requires DiskOk(disk, h, m) && NumbersOk(m) && m.install.None? && m'.install.None?
    requires m'.levels == m.levels && m'.group == m.group && m'.starts == m.starts && m'.imm == m.imm
    requires m'.versionLog == m.versionLog && m'.logNumber == m.logNumber && m'.lastSeq == m.lastSeq
    requires m'.pending == m.pending + {m.nextFile} && m'.nextFile == m.nextFile + 1
    ensures DiskOk(disk, h, m')
  {
    hide Stores, TablesHold, Built, Descending, EditDescends;
    TailBeyond(disk.logs, m.logNumber, m.nextFile, m'.nextFile);
    TailBeyond(disk.logs, m.versionLog, m.nextFile, m'.nextFile);
    var d := DurableNow(disk, m);
    assert DurableNow(disk, m') == d.(bound := m'.nextFile);
  }

  lemma StartFlushInv(s: State, m: Memory)
    requires OpenInv(s.disk, s.hist, m) && |m.gens| > 0 && CanCompact(s, m, StartFlush)
    ensures Inv(AfterCompact(s, m, StartFlush))
  {
    hide MemOk, Stores, Ready, InstallFits, TablesHold, PinOk, ReaderOk, ManifestOk, LogsOk, Recoverable;
    var m' := m.(flush := Some(m.nextFile), pending := m.pending + {m.nextFile}, nextFile := m.nextFile + 1);
    PinnedAllocate(s.disk.tables, m, m');
    DiskAllocate(s.disk, s.hist, m, m');
    LevelsFresh(s.disk.tables, m);
  }

  lemma LevelsFresh(tables: map<nat, seq<Entry>>, m: Memory)
    requires PinnedOk(tables, m)
    ensures Fresh(m.levels, m.nextFile) && NoneUsed(m.pending, m.levels) && TablesHold(tables, m.levels)
  {
    assert Pinned(m, m.levels) && PinOk(tables, m, m.levels);
  }

  lemma AllocateOutputInv(s: State, m: Memory)
    requires OpenInv(s.disk, s.hist, m) && |m.gens| > 0 && CanCompact(s, m, AllocateOutput)
    ensures Inv(AfterCompact(s, m, AllocateOutput))
  {
    hide MemOk, Stores, Ready, InstallFits, TablesHold, PinOk, ReaderOk, ManifestOk, LogsOk, Recoverable;
    var r := m.compaction.value;
    var m' := m.(compaction := Some(r.(numbers := r.numbers + {m.nextFile})),
                 pending := m.pending + {m.nextFile}, nextFile := m.nextFile + 1);
    PinnedAllocate(s.disk.tables, m, m');
    DiskAllocate(s.disk, s.hist, m, m');
  }

  /** Writing under a pending number changes no table that anybody reads. */
  lemma WriteOutputInv(s: State, m: Memory, n: nat, content: seq<Entry>)
    requires s.mode == Open(m) && OpenInv(s.disk, s.hist, m) && |m.gens| > 0
    requires CanCompact(s, m, WriteOutput(n, content))
    ensures Inv(AfterCompact(s, m, WriteOutput(n, content)))
  {
    hide MemOk, Stores, Ready, InstallFits, TablesHold, ReaderOk, ManifestOk, LogsOk, Recoverable;
    var tables := s.disk.tables[n := content];
    forall v | Pinned(m, v) ensures PinOk(tables, m, v) {
      assert PinOk(s.disk.tables, m, v);
      UnusedKept(s.disk.tables, n, content, v);
    }
    LevelsFresh(s.disk.tables, m);
    UnusedKept(s.disk.tables, n, content, m.levels);
    DiskTables(s.disk, s.hist, m, tables);
  }

  /** Tables may change as long as those of the current version do not. */
  lemma DiskTables(disk: Disk, h: seq<Entry>, m: Memory, tables: map<nat, seq<Entry>>)
    requires DiskOk(disk, h, m) && m.install.None? && TablesHold(tables, m.levels)
    ensures DiskOk(disk.(tables := tables), h, m)
  {
    hide Stores, TablesHold, Built, ManifestOk, LogsOk;
    assert DurableNow(disk.(tables := tables), m) == DurableNow(disk, m);
  }

  lemma UnusedKept(tables: map<nat, seq<Entry>>, n: nat, content: seq<Entry>, v: Levels)
    requires TablesHold(tables, v) && !UsesNumber(v, n)
    ensures TablesHold(tables[n := content], v)
    ensures TablesHold(tables - {n}, v)
  {
  }

  // ---------- flushing ----------

  /** A slice of the history as a set of recorded entries. */
  lemma SliceEntries(w: seq<Entry>, a: nat, b: nat, e: Entry)
    requires History(w) && a <= b <= |w|
    ensures e in w[a..b] <==> Recorded(w[..b], e) && e.key.sn > a
  {
    if e in w[a..b] {
      var i :| 0 <= i < |w[a..b]| && w[a..b][i] == e;
      assert w[..b][a + i] == e;
    }
    if Recorded(w[..b], e) && e.key.sn > a {
      assert w[a..b][e.key.sn - 1 - a] == e;
    }
  }

  /** The immutable memtable is the history between the flush point and the current memtable. */
  lemma ImmutableSlice(h: seq<Entry>, m: Memory)
    requires MemFits(h, m) && m.imm
    ensures Point(m) <= MemStart(m) <= |h| && History(h)
    ensures m.gens[|m.gens| - 2] == h[Point(m)..MemStart(m)]
  {
    var w := h + InFlight(m.group);
    assert w[..|h|] == h;
    assert w[Point(m)..MemStart(m)] == h[Point(m)..MemStart(m)];
    forall i | 0 <= i < |h| ensures h[i].key.sn == i + 1 {
      assert w[i] == h[i];
    }
  }

  lemma SameVersion(before: Levels, after: Levels)
    requires DirectoryOrder(before) && Applied(before, FileEdit({}, []), after)
    ensures after == before
  {
    forall l | 0 <= l < NUM_LEVELS ensures after[l] == before[l] {
      OneOrder(after[l], before[l]);
    }
  }

  /** The flushed version stores the history up to the start of the current memtable. */
  lemma FlushStores(h: seq<Entry>, m: Memory, table: Option<File>, level: nat, after: Levels)
    requires MemFits(h, m) && m.imm && m.flush.Some? && Fresh(m.levels, m.flush.value)
    requires VersionOk(h, Point(m), m.levels, m.floor, m.snapshots)
    requires |m.gens| > 1 && FlushedTable(m, m.flush.value, table, level)
    requires Applied(m.levels, FlushEdit(table, level), after)
    ensures MemStart(m) <= |h| && Stores(after, h[..MemStart(m)], m.floor)
  {
    hide MemOk, Stores, Applied;
    ImmutableSlice(h, m);
    var q := MemStart(m);
    var part := h[..q];
    assert part[..Point(m)] == h[..Point(m)];
    if table.Some? {
      forall e ensures e in table.value.entries <==> Recorded(part, e) && e.key.sn > Point(m) {
        SliceEntries(h, Point(m), q, e);
      }
      FlushKeeps(m.levels, after, part, Point(m), m.floor, table.value, level);
    } else {
      assert part == h[..Point(m)];
      StoresOrdered(m.levels, h[..Point(m)], m.floor);
      SameVersion(m.levels, after);
    }
  }

  lemma StoresOrdered(levels: Levels, h: seq<Entry>, floor: nat)
    requires Stores(levels, h, floor)
    ensures Ordered(levels) && DirectoryOrder(levels) && DistinctNumbers(levels) && |levels| == NUM_LEVELS
  {
  }

  /** The new table does not get in the way of a running compaction. */
  lemma FlushReady(h: seq<Entry>, m: Memory, table: Option<File>, level: nat, after: Levels)
    requires MemFits(h, m) && m.imm && m.flush.Some? && m.compaction.Some?
    requires VersionOk(h, Point(m), m.levels, m.floor, m.snapshots)
    requires CompactionOk(h, m.levels, m.snapshots, m.compaction)
    requires |m.gens| > 1 && FlushedTable(m, m.flush.value, table, level)
    requires Applied(m.levels, FlushEdit(table, level), after)
    ensures Ready(after, m.compaction.value.base, m.compaction.value.c)
  {
    hide MemOk, Ready, Applied;
    ImmutableSlice(h, m);
    if table.Some? {
      var f := table.value;
      var part := h[..MemStart(m)];
      forall e ensures e in f.entries <==> Recorded(part, e) && e.key.sn > Point(m) {
        SliceEntries(h, Point(m), MemStart(m), e);
      }
      assert part[..Point(m)] == h[..Point(m)];
      FlushedIsNewer(m.levels, part, Point(m), f);
      ReadyAfterFlush(m.levels, m.compaction.value.base, m.compaction.value.c, f, level, after);
    } else {
      SameVersion(m.levels, after);
    }
  }

  /** Files of the version after an edit that only adds. */
  lemma AddedFiles(before: Levels, e: FileEdit, after: Levels, tables: map<nat, seq<Entry>>, next: nat, open: set<nat>)
    requires Applied(before, e, after)
    requires Fresh(before, next) && NoneUsed(open, before) && TablesHold(tables, before)
    requires forall i :: 0 <= i < |e.added| ==>
      var f := e.added[i].1;
      f.number < next && f.number !in open && f.number in tables && tables[f.number] == f.entries
    ensures Fresh(after, next) && NoneUsed(open, after) && TablesHold(tables, after)
  {
    forall l, f | 0 <= l < |after| && f in after[l]
      ensures f.number < next && f.number !in open && f.number in tables && tables[f.number] == f.entries
    {
      if (l, f) in e.added {
        var i :| 0 <= i < |e.added| && e.added[i] == (l, f);
      } else {
        assert f in before[l];
        assert UsesNumber(before, f.number);
      }
    }
  }

  // ---------- preparing an edit ----------

  /** Numbers that are still open can be added at any level. */
  lemma OpenDescends(edits: seq<FileEdit>, e: FileEdit, next: nat, open: set<nat>)
    requires AddedBelow(edits, next, open)
    requires forall i :: 0 <= i < |e.added| ==> e.added[i].0 < NUM_LEVELS && e.added[i].1.number in open
    requires forall i, j :: 0 <= i < j < |e.added| ==> e.added[i].1.number != e.added[j].1.number
    requires forall d :: d in e.deleted ==> d.1 !in open
    ensures EditDescends(edits, e)
  {
  }

  /** `LogAndApply` up to the point where it releases the mutex: nothing has reached the disk. */
  lemma DiskPrepare(disk: Disk, h: seq<Entry>, m: Memory, m': Memory, tables: map<nat, seq<Entry>>)
    requires DiskOk(disk, h, m) && m.install.None? && TablesHold(tables, m.levels)
    requires m'.install.Some? && !m'.install.value.logged
    requires m'.install.value.edit.meta.Some? && m'.install.value.edit.meta.value.next == m.nextFile
    requires OpenNumbers(m') <= m.pending
    requires EditDescends(FileEdits(disk.manifests[disk.current]), m'.install.value.edit.files)
    requires m'.levels == m.levels && m'.group == m.group && m'.starts == m.starts && m'.imm == m.imm
    requires m'.versionLog == m.versionLog && m'.logNumber == m.logNumber && m'.lastSeq == m.lastSeq
    requires m'.nextFile == m.nextFile
    ensures DiskOk(disk.(tables := tables), h, m')
  {
    hide Stores, TablesHold, Built, EditDescends, Descending;
    assert DurableNow(disk.(tables := tables), m') == DurableNow(disk, m);
  }

  lemma FinishFlushInv(s: State, m: Memory, table: Option<File>, level: nat, after: Levels)
    requires OpenInv(s.disk, s.hist, m) && |m.gens| > 0 && CanCompact(s, m, FinishFlush(table, level, after))
    ensures Inv(AfterCompact(s, m, FinishFlush(table, level, after)))
  {
    hide MemOk, Stores, Ready, TablesHold, PinOk, ReaderOk, LogsOk, Recoverable, Applied, Fresh, NoneUsed,
         FlushedTable, EditDescends, InstallOk, DiskOk;
    var n := m.flush.value;
    var m' := m.(flush := None, pending := m.pending - {n},
                 install := Prepare(m, Flushing, FlushEdit(table, level), after));
    var tables := if table.Some? then s.disk.tables[n := table.value.entries] else s.disk.tables;
    FlushTables(s.disk.tables, m, m', table, level, after);
    FlushInstallOk(s.hist, m, m', table, level, after, tables);
    FlushDescends(s.disk, s.hist, m, table, level);
    LevelsFresh(tables, m');
    DiskPrepare(s.disk, s.hist, m, m', tables);
  }

  lemma FlushTables(tables: map<nat, seq<Entry>>, m: Memory, m': Memory, table: Option<File>, level: nat, after: Levels)
    requires PinnedOk(tables, m) && NumbersOk(m) && m.flush.Some? && |m.gens| > 1
    requires FlushedTable(m, m.flush.value, table, level) && Applied(m.levels, FlushEdit(table, level), after)
    requires m'.levels == m.levels && m'.readers == m.readers && m'.compaction == m.compaction
    requires m'.nextFile == m.nextFile && m'.pending == m.pending - {m.flush.value}
    ensures var t := if table.Some? then tables[m.flush.value := table.value.entries] else tables;
      PinnedOk(t, m') && Fresh(after, m.nextFile) && NoneUsed(m'.pending, after) && TablesHold(t, after)
  {
    hide Applied, TablesHold;
    var t := if table.Some? then tables[m.flush.value := table.value.entries] else tables;
    forall v | Pinned(m', v) ensures PinOk(t, m', v) {
      assert Pinned(m, v) && PinOk(tables, m, v);
      if table.Some? {
        UnusedKept(tables, m.flush.value, table.value.entries, v);
      }
    }
    LevelsFresh(t, m');
    AddedFiles(m.levels, FlushEdit(table, level), after, t, m.nextFile, m'.pending);
  }

  lemma FlushInstallOk(h: seq<Entry>, m: Memory, m': Memory, table: Option<File>, level: nat, after: Levels,
                       tables: map<nat, seq<Entry>>)
    requires MemFits(h, m) && m.imm && m.flush.Some? && m.install.None? && NumbersOk(m)
    requires VersionOk(h, Point(m), m.levels, m.floor, m.snapshots)
    requires CompactionOk(h, m.levels, m.snapshots, m.compaction)
    requires |m.gens| > 1 && FlushedTable(m, m.flush.value, table, level)
    requires Applied(m.levels, FlushEdit(table, level), after)
    requires m' == m.(flush := None, pending := m.pending - {m.flush.value},
                      install := Prepare(m, Flushing, FlushEdit(table, level), after))
    requires Fresh(after, m.nextFile) && NoneUsed(m'.pending, after) && TablesHold(tables, after)
    ensures InstallOk(h, m', tables)
  {
    hide MemOk, Stores, Ready, TablesHold, Applied, Fresh, NoneUsed, FlushedTable, VersionOk, CompactionOk;
    MemShape(h, m);
    FlushStores(h, m, table, level, after);
    if m.compaction.Some? {
      FlushReady(h, m, table, level, after);
    }
  }

  lemma FlushDescends(disk: Disk, h: seq<Entry>, m: Memory, table: Option<File>, level: nat)
    requires DiskOk(disk, h, m) && NumbersOk(m) && m.flush.Some? && m.install.None? && |m.gens| > 1
    requires FlushedTable(m, m.flush.value, table, level)
    ensures disk.current in disk.manifests
    ensures EditDescends(FileEdits(disk.manifests[disk.current]), FlushEdit(table, level))
  {
    hide Recoverable, LogsOk;
    OpenDescends(FileEdits(disk.manifests[disk.current]), FlushEdit(table, level), m.nextFile, m.pending);
  }

  // ---------- compactions ----------

  lemma PickedReady(h: seq<Entry>, m: Memory, c: Inputs)
    requires VersionOk(h, Point(m), m.levels, m.floor, m.snapshots)
    requires Picked(m.levels, c) && BoundaryClosed(m.levels, c)
    ensures Ready(m.levels, m.levels, c)
  {
    hide Stores, Picked, BoundaryClosed, Ready;
    StoredOnce(m.levels, h[..Point(m)], m.floor);
    StoresOrdered(m.levels, h[..Point(m)], m.floor);
    PickedIsReady(m.levels, c);
  }

  lemma StartCompactionInv(s: State, m: Memory, c: Inputs, t: nat)
    requires OpenInv(s.disk, s.hist, m) && |m.gens| > 0 && CanCompact(s, m, StartCompaction(c, t))
    ensures Inv(AfterCompact(s, m, StartCompaction(c, t)))
  {
    hide Stores, Ready, PinOk, ReaderOk, ManifestOk, LogsOk, Recoverable, Picked, BoundaryClosed, MemOk;
    MemShape(s.hist, m);
    PickedReady(s.hist, m, c);
    var m' := m.(compaction := Some(Running(c, m.levels, t, {})));
    forall v | Pinned(m', v) ensures PinOk(s.disk.tables, m', v) {
      assert Pinned(m, v) && PinOk(s.disk.tables, m, v);
      PinFrame(s.disk.tables, m, m', v);
    }
    DiskFrame(s.disk, s.hist, m, s.hist, m');
  }

  /** A file moves one level down, to where it has never been. */
  lemma MoveDescends(edits: seq<FileEdit>, levels: Levels, c: Inputs)
    requires Descending(edits, levels) && |levels| == NUM_LEVELS && c.level + 1 < NUM_LEVELS
    requires |c.in0| == 1 && c.in1 == [] && c.in0[0] in levels[c.level]
    ensures EditDescends(edits, CompactionEdit(c, c.in0))
  {
    var f := c.in0[0];
    assert CompactionEdit(c, c.in0).added == [(c.level + 1, f)];
    assert c.in1 == [];
    assert forall d :: d in CompactionEdit(c, c.in0).deleted ==> d.0 == c.level;
  }

  /** Files of the version after a compaction edit. */
  lemma SwappedFiles(before: Levels, c: Inputs, outs: seq<File>, after: Levels, tables: map<nat, seq<Entry>>, next: nat)
    requires Applied(before, CompactionEdit(c, outs), after)
    requires Fresh(before, next) && TablesHold(tables, before)
    requires forall o :: o in outs ==> o.number < next && o.number in tables && tables[o.number] == o.entries
    ensures Fresh(after, next) && TablesHold(tables, after)
  {
    CompactionEditFiles(c, outs);
  }

  lemma StartMoveInv(s: State, m: Memory, c: Inputs, after: Levels)
    requires OpenInv(s.disk, s.hist, m) && |m.gens| > 0 && CanCompact(s, m, StartMove(c, after))
    ensures Inv(AfterCompact(s, m, StartMove(c, after)))
  {
    hide Stores, Ready, PinOk, ReaderOk, LogsOk, Recoverable, BoundaryClosed, MemOk, Applied, TablesHold,
         Fresh, NoneUsed, VersionOk, EditDescends, DiskOk, Descending;
    MemShape(s.hist, m);
    var m' := m.(install := Prepare(m, Moving, CompactionEdit(c, c.in0), after));
    MoveStores(s.hist, m, c, after);
    LevelsFresh(s.disk.tables, m);
    MovedTables(s.disk.tables, m, c, after);
    PinnedFrame(s.disk.tables, m, m');
    MoveEditOk(s.disk, s.hist, m, c);
    DiskPrepare(s.disk, s.hist, m, m', s.disk.tables);
  }

  lemma MoveEditOk(disk: Disk, h: seq<Entry>, m: Memory, c: Inputs)
    requires DiskOk(disk, h, m) && m.install.None? && |m.levels| == NUM_LEVELS
    requires Picked(m.levels, c) && |c.in0| == 1 && c.in1 == []
    ensures disk.current in disk.manifests
    ensures EditDescends(FileEdits(disk.manifests[disk.current]), CompactionEdit(c, c.in0))
  {
    hide Recoverable, LogsOk, EditDescends, GapFree;
    assert c.in0[0] in c.in0;
    MoveDescends(FileEdits(disk.manifests[disk.current]), m.levels, c);
  }

  lemma MovedTables(tables: map<nat, seq<Entry>>, m: Memory, c: Inputs, after: Levels)
    requires Fresh(m.levels, m.nextFile) && TablesHold(tables, m.levels)
    requires Picked(m.levels, c) && Applied(m.levels, CompactionEdit(c, c.in0), after)
    ensures Fresh(after, m.nextFile) && TablesHold(tables, after)
  {
    hide Applied, GapFree, HullOverlap, NoTail, OverlapClosed;
    SwappedFiles(m.levels, c, c.in0, after, tables, m.nextFile);
  }

  lemma MoveStores(h: seq<Entry>, m: Memory, c: Inputs, after: Levels)
    requires VersionOk(h, Point(m), m.levels, m.floor, m.snapshots)
    requires Picked(m.levels, c) && |c.in0| == 1 && c.in1 == []
    requires Applied(m.levels, CompactionEdit(c, c.in0), after)
    ensures Point(m) <= |h| && Stores(after, h[..Point(m)], m.floor)
    ensures |m.levels| == NUM_LEVELS
  {
    hide Stores, Applied, Ready;
    assert BoundaryClosed(m.levels, c);
    PickedReady(h, m, c);
    MoveKeeps(m.levels, m.levels, c, after, h[..Point(m)], m.floor);
    StoresOrdered(m.levels, h[..Point(m)], m.floor);
  }

  lemma CompactionStores(h: seq<Entry>, m: Memory, tables: map<nat, seq<Entry>>, outs: seq<File>, after: Levels)
    requires VersionOk(h, Point(m), m.levels, m.floor, m.snapshots)
    requires CompactionOk(h, m.levels, m.snapshots, m.compaction) && m.compaction.Some?
    requires NumbersOk(m) && NoneUsed(m.pending, m.levels)
    requires WrittenOutputs(m.compaction.value, tables, outs)
    requires Applied(m.levels, CompactionEdit(m.compaction.value.c, outs), after)
    ensures Point(m) <= |h|
    ensures Stores(after, h[..Point(m)], Later(m.floor, m.compaction.value.smallestSnapshot))
  {
    hide Stores, Applied, Ready, Compacted, Fresh, SnapshotsFrom, SnapshotsUpTo;
    var r := m.compaction.value;
    OutputsWritten(m, tables, outs);
    CompactionKeeps(m.levels, r.base, r.c, r.smallestSnapshot, outs, after, h[..Point(m)], m.floor);
  }

  lemma OutputsWritten(m: Memory, tables: map<nat, seq<Entry>>, outs: seq<File>)
    requires m.compaction.Some? && NumbersOk(m) && NoneUsed(m.pending, m.levels)
    requires WrittenOutputs(m.compaction.value, tables, outs)
    ensures Outputs(m.levels, m.compaction.value.c, outs)
  {
    hide Fresh, Dropped;
    var c := m.compaction.value.c;
    forall o, e | o in outs && e in o.entries ensures InInputs(c, e) {
      assert InOutputs(outs, e);
    }
    forall o, l, g | o in outs && Remains(m.levels, c, l, g) ensures o.number != g.number {
      assert UsesNumber(m.levels, g.number);
    }
  }

  lemma OutputEditOk(disk: Disk, h: seq<Entry>, m: Memory, outs: seq<File>)
    requires DiskOk(disk, h, m) && NumbersOk(m) && m.install.None? && m.compaction.Some?
    requires NoneUsed(m.pending, m.levels)
    requires |m.levels| == NUM_LEVELS && Ready(m.levels, m.compaction.value.base, m.compaction.value.c)
    requires WrittenOutputs(m.compaction.value, disk.tables, outs)
    ensures disk.current in disk.manifests
    ensures EditDescends(FileEdits(disk.manifests[disk.current]), CompactionEdit(m.compaction.value.c, outs))
  {
    hide Recoverable, LogsOk, EditDescends, Compacted, GapFree, Fresh;
    var c := m.compaction.value.c;
    var e := CompactionEdit(c, outs);
    forall d | d in e.deleted ensures d.1 !in m.pending {
      assert (exists f :: f in c.in0 && d == (c.level, f.number)) || (exists f :: f in c.in1 && d == (c.level + 1, f.number));
      assert UsesNumber(m.levels, d.1);
    }
    forall i | 0 <= i < |e.added| ensures e.added[i].0 < NUM_LEVELS && e.added[i].1.number in m.pending {
      assert e.added[i].1 == outs[i] && outs[i] in outs;
    }
    OpenDescends(FileEdits(disk.manifests[disk.current]), e, m.nextFile, m.pending);
  }

  lemma OutputTables(tables: map<nat, seq<Entry>>, m: Memory, outs: seq<File>, after: Levels)
    requires Fresh(m.levels, m.nextFile) && TablesHold(tables, m.levels) && NumbersOk(m) && m.compaction.Some?
    requires WrittenOutputs(m.compaction.value, tables, outs)
    requires Applied(m.levels, CompactionEdit(m.compaction.value.c, outs), after)
    ensures Fresh(after, m.nextFile) && TablesHold(tables, after)
  {
    hide Applied, Compacted, Fresh, TablesHold;
    SwappedFiles(m.levels, m.compaction.value.c, outs, after, tables, m.nextFile);
  }

  lemma FinishCompactionInv(s: State, m: Memory, outs: seq<File>, after: Levels)
    requires OpenInv(s.disk, s.hist, m) && |m.gens| > 0 && CanCompact(s, m, FinishCompaction(outs, after))
    ensures Inv(AfterCompact(s, m, FinishCompaction(outs, after)))
  {
    hide Stores, Ready, PinOk, ReaderOk, LogsOk, Recoverable, MemOk, Applied, TablesHold,
         Fresh, NoneUsed, EditDescends, DiskOk, Descending, WrittenOutputs;
    MemShape(s.hist, m);
    var c := m.compaction.value.c;
    var m' := m.(install := Prepare(m, Compacting, CompactionEdit(c, outs), after));
    LevelsFresh(s.disk.tables, m);
    CompactionStores(s.hist, m, s.disk.tables, outs, after);
    OutputTables(s.disk.tables, m, outs, after);
    PinnedFrame(s.disk.tables, m, m');
    VersionLevels(s.hist, m);
    OutputEditOk(s.disk, s.hist, m, outs);
    DiskPrepare(s.disk, s.hist, m, m', s.disk.tables);
  }

  lemma VersionLevels(h: seq<Entry>, m: Memory)
    requires VersionOk(h, Point(m), m.levels, m.floor, m.snapshots)
    ensures |m.levels| == NUM_LEVELS
  {
  }

  // ---------- the manifest ----------

  lemma DescendsNeverHeld(edits: seq<FileEdit>, e: FileEdit)
    requires EditDescends(edits, e)
    ensures NeverHeld(EMPTY, edits, e)
  {
  }

  /** What an edit adds to the builder's memory. */
  lemma AddsAfter(edits: seq<FileEdit>, e: FileEdit, l: nat)
    requires EditDescends(edits, e) && l < NUM_LEVELS
    ensures forall g :: g in ApplyAll(edits + [e], l).added <==> g in ApplyAll(edits, l).added || (l, g) in e.added
  {
    var s := ApplyAll(edits, l);
    assert (edits + [e])[..|edits|] == edits;
    AddFilesMembers(s.(deleted := s.deleted + set d | d in e.deleted && d.0 == l :: d.1), l, e.added);
  }

  lemma DescendingAfter(edits: seq<FileEdit>, e: FileEdit, before: Levels, after: Levels, next: nat, open: set<nat>,
                        stillOpen: set<nat>)
    requires EditDescends(edits, e) && Descending(edits, before) && Applied(before, e, after)
    requires DistinctNumbers(after) && AddedBelow(edits, next, open) && Fresh(after, next)
    requires stillOpen <= open && NoneUsed(stillOpen, after)
    ensures Descending(edits + [e], after) && AddedBelow(edits + [e], next, stillOpen)
  {
    forall l, g, k, f | 0 <= l < NUM_LEVELS && g in ApplyAll(edits + [e], l).added && 0 <= k < |after| &&
        f in after[k] && f.number == g.number
      ensures l <= k
    {
      AddsAfter(edits, e, l);
      if g in ApplyAll(edits, l).added {
        if (k, f) in e.added {
          var i :| 0 <= i < |e.added| && e.added[i] == (k, f);
        }
      } else {
        assert g in after[l];
      }
    }
    forall l, g | 0 <= l < NUM_LEVELS && g in ApplyAll(edits + [e], l).added
      ensures g.number < next && g.number !in stillOpen
    {
      AddsAfter(edits, e, l);
      if g !in ApplyAll(edits, l).added {
        assert g in after[l];
        assert UsesNumber(after, g.number);
      }
    }
  }

  lemma FileEditsAppend(edits: seq<Edit>, e: Edit)
    ensures FileEdits(edits + [e]) == FileEdits(edits) + [e.files]
    ensures e.meta.Some? ==> LastMeta(edits + [e]) == e.meta
  {
  }

  /** What is common to the three kinds of edit when they are installed. */
  lemma InstallStores(h: seq<Entry>, m: Memory, tables: map<nat, seq<Entry>>)
    requires InstallOk(h, m, tables) && m.install.Some? && NumbersOk(m)
    requires VersionOk(h, Point(m), m.levels, m.floor, m.snapshots)
    requires CompactionOk(h, m.levels, m.snapshots, m.compaction)
    ensures var i := m.install.value;
      var point := if i.kind.Flushing? then MemStart(m) else Point(m);
      && point <= i.edit.meta.value.last <= |h|
      && Stores(i.after, h[..point], |h|)
      && i.edit.meta.value.log == (if i.kind.Flushing? then m.logNumber else m.versionLog)
    ensures NoneUsed(OpenNumbers(m), m.install.value.after)
  {
    hide Stores, Ready, TablesHold, Applied, Fresh;
    var i := m.install.value;
    match i.kind
    case Flushing => StoresLater(i.after, h[..MemStart(m)], m.floor, |h|);
    case Compacting =>
      StoresLater(i.after, h[..Point(m)], Later(m.floor, m.compaction.value.smallestSnapshot), |h|);
    case Moving => StoresLater(i.after, h[..Point(m)], m.floor, |h|);
  }

  lemma LogEditManifest(disk: Disk, h: seq<Entry>, m: Memory, m': Memory)
    requires DiskOk(disk, h, m) && InstallOk(h, m, disk.tables) && m.install.Some? && !m.install.value.logged
    requires NumbersOk(m) && DistinctNumbers(m.install.value.after) && m.lastSeq == |h|
    requires NoneUsed(OpenNumbers(m), m.install.value.after)
    requires m' == m.(install := Some(m.install.value.(logged := true)))
    ensures ManifestOk(disk.manifests[disk.current] + [m.install.value.edit], m')
    ensures Built(EMPTY, FileEdits(disk.manifests[disk.current] + [m.install.value.edit]), m.install.value.after)
  {
    hide Recoverable, LogsOk, DistinctNumbers, EditDescends, TablesHold, InstallFits, Applied, Descending, AddedBelow,
         NoneUsed;
    var edits := disk.manifests[disk.current];
    var i := m.install.value;
    FileEditsAppend(edits, i.edit);
    FreshLater(i.after, i.edit.meta.value.next, m.nextFile);
    DescendingAfter(FileEdits(edits), i.edit.files, m.levels, i.after, m.nextFile, OpenNumbers(m), OpenNumbers(m'));
    DescendsNeverHeld(FileEdits(edits), i.edit.files);
    BuiltNow(disk, h, m);
    BuiltStep(EMPTY, FileEdits(edits), m.levels, i.edit.files, i.after);
  }

  lemma FreshLater(v: Levels, n: nat, k: nat)
    requires Fresh(v, n) && n <= k
    ensures Fresh(v, k)
  {
  }

  lemma BuiltNow(disk: Disk, h: seq<Entry>, m: Memory)
    requires DiskOk(disk, h, m) && !Logged(m)
    ensures Built(EMPTY, FileEdits(disk.manifests[disk.current]), m.levels)
  {
    hide Built;
  }

  lemma LogEditDisk(disk: Disk, h: seq<Entry>, m: Memory, m': Memory)
    requires DiskOk(disk, h, m) && InstallOk(h, m, disk.tables) && m.install.Some? && !m.install.value.logged
    requires NumbersOk(m) && m.lastSeq == |h|
    requires VersionOk(h, Point(m), m.levels, m.floor, m.snapshots)
    requires CompactionOk(h, m.levels, m.snapshots, m.compaction)
    requires m' == m.(install := Some(m.install.value.(logged := true)))
    ensures DiskOk(disk.(manifests := disk.manifests[disk.current := disk.manifests[disk.current] + [m.install.value.edit]]),
                   h, m')
  {
    hide Stores, TablesHold, Built, EditDescends, Descending, AddedBelow, InstallFits, Applied, Fresh, NoneUsed,
         VersionOk, CompactionOk, ManifestOk;
    var i := m.install.value;
    var edits := disk.manifests[disk.current] + [i.edit];
    var w := h + OnDisk(m.group);
    InstallStores(h, m, disk.tables);
    var point := if i.kind.Flushing? then MemStart(m) else Point(m);
    assert w[..point] == h[..point];
    StoresLater(i.after, h[..point], |h|, |w|);
    StoresOrdered(i.after, h[..point], |h|);
    LogEditManifest(disk, h, m, m');
    FileEditsAppend(disk.manifests[disk.current], i.edit);
    var d := Durable(i.after, i.edit.meta.value, point, m.nextFile);
    var disk' := disk.(manifests := disk.manifests[disk.current := edits]);
    assert DurableNow(disk', m') == d;
    assert Stands(disk', edits, w, d);
  }

  lemma LogEditInv(s: State, m: Memory)
    requires s.mode == Open(m) && OpenInv(s.disk, s.hist, m) && |m.gens| > 0 && CanCompact(s, m, LogEdit)
    ensures Inv(AfterCompact(s, m, LogEdit))
  {
    hide Stores, Ready, PinOk, ReaderOk, MemOk, Applied, TablesHold, Fresh, NoneUsed, DiskOk;
    MemShape(s.hist, m);
    var m' := m.(install := Some(m.install.value.(logged := true)));
    PinnedFrame(s.disk.tables, m, m');
    LogEditDisk(s.disk, s.hist, m, m');
  }

  // ---------- installing a version ----------

  lemma PinnedInstall(tables: map<nat, seq<Entry>>, m: Memory, m': Memory)
    requires PinnedOk(tables, m) && m'.readers == m.readers && m'.nextFile == m.nextFile && m'.pending <= m.pending
    requires m'.compaction == m.compaction || m'.compaction.None?
    requires Fresh(m'.levels, m.nextFile) && NoneUsed(m'.pending, m'.levels) && TablesHold(tables, m'.levels)
    ensures PinnedOk(tables, m')
  {
    hide Fresh, TablesHold;
    forall v | Pinned(m', v) ensures PinOk(tables, m', v) {
      if v != m'.levels {
        assert Pinned(m, v) && PinOk(tables, m, v);
      }
    }
  }

  /** Installing does not change what is on disk. */
  lemma DiskInstall(disk: Disk, h: seq<Entry>, m: Memory, m': Memory)
    requires DiskOk(disk, h, m) && Logged(m) && m'.install.None? && InstallOk(h, m, disk.tables)
    requires m'.levels == m.install.value.after && m'.versionLog == m.install.value.edit.meta.value.log
    requires Point(m') == (if m.install.value.kind.Flushing? then MemStart(m) else Point(m))
    requires MemStart(m') == MemStart(m)
    requires m'.versionLog == (if m.install.value.kind.Flushing? then m.logNumber else m.versionLog)
    requires m'.group == m.group && m'.logNumber == m.logNumber && m'.lastSeq == m.lastSeq
    requires m'.nextFile == m.nextFile && m'.pending <= OpenNumbers(m)
    ensures DiskOk(disk, h, m')
  {
    hide Stores, TablesHold, Built, Descending, EditDescends, InstallFits, Applied, Fresh;
    assert DurableNow(disk, m') == DurableNow(disk, m);
  }

  lemma InstallFlushInv(s: State, m: Memory)
    requires s.mode == Open(m) && OpenInv(s.disk, s.hist, m) && |m.gens| > 0 && CanCompact(s, m, InstallVersion)
    requires m.install.value.kind.Flushing?
    ensures Inv(AfterCompact(s, m, InstallVersion))
  {
    hide Stores, Ready, PinOk, ReaderOk, Applied, TablesHold, Fresh, NoneUsed, DiskOk, Slices, History;
    MemShape(s.hist, m);
    var i := m.install.value;
    var m' := m.(levels := i.after, install := None, versionLog := i.edit.meta.value.log, imm := false);
    FreshLater(i.after, i.edit.meta.value.next, m.nextFile);
    PinnedInstall(s.disk.tables, m, m');
    DiskInstall(s.disk, s.hist, m, m');
  }

  lemma InstallMoveInv(s: State, m: Memory)
    requires s.mode == Open(m) && OpenInv(s.disk, s.hist, m) && |m.gens| > 0 && CanCompact(s, m, InstallVersion)
    requires m.install.value.kind.Moving?
    ensures Inv(AfterCompact(s, m, InstallVersion))
  {
    hide Stores, Ready, PinOk, ReaderOk, Applied, TablesHold, Fresh, DiskOk, MemOk;
    MemShape(s.hist, m);
    var i := m.install.value;
    var m' := m.(levels := i.after, install := None, versionLog := i.edit.meta.value.log);
    FreshLater(i.after, i.edit.meta.value.next, m.nextFile);
    PinnedInstall(s.disk.tables, m, m');
    DiskInstall(s.disk, s.hist, m, m');
  }

  lemma InstallCompactionInv(s: State, m: Memory)
    requires s.mode == Open(m) && OpenInv(s.disk, s.hist, m) && |m.gens| > 0 && CanCompact(s, m, InstallVersion)
    requires m.install.value.kind.Compacting?
    ensures Inv(AfterCompact(s, m, InstallVersion))
  {
    hide Stores, Ready, PinOk, ReaderOk, Applied, TablesHold, Fresh, DiskOk, MemOk;
    MemShape(s.hist, m);
    var i := m.install.value;
    var r := m.compaction.value;
    var m' := m.(levels := i.after, install := None, versionLog := i.edit.meta.value.log, compaction := None,
                 pending := m.pending - r.numbers, floor := Later(m.floor, r.smallestSnapshot));
    FreshLater(i.after, i.edit.meta.value.next, m.nextFile);
    assert m'.pending == {};
    PinnedInstall(s.disk.tables, m, m');
    DiskInstall(s.disk, s.hist, m, m');
  }

  // ---------- deleting files ----------

  lemma DeleteTableInv(s: State, m: Memory, n: nat)
    requires s.mode == Open(m) && OpenInv(s.disk, s.hist, m) && CanDelete(s, m, DeleteTable(n))
    ensures Inv(AfterDelete(s, m, DeleteTable(n)))
  {
    hide MemOk, Stores, Ready, TablesHold, ReaderOk, DiskOk;
    var tables := s.disk.tables - {n};
    forall v | Pinned(m, v) ensures PinOk(tables, m, v) {
      assert PinOk(s.disk.tables, m, v);
      UnusedKept(s.disk.tables, n, [], v);
    }
    LevelsFresh(tables, m);
    DiskTables(s.disk, s.hist, m, tables);
  }

  lemma DeleteLogInv(s: State, m: Memory, n: nat)
    requires s.mode == Open(m) && OpenInv(s.disk, s.hist, m) && CanDelete(s, m, DeleteLog(n))
    ensures Inv(AfterDelete(s, m, DeleteLog(n)))
  {
    hide MemOk, Stores, Ready, TablesHold, ReaderOk, PinnedOk, Built, Descending, AddedBelow;
    var logs := s.disk.logs - {n};
    TailSame(s.disk.logs, logs, m.logNumber, m.nextFile);
    TailSame(s.disk.logs, logs, m.versionLog, m.nextFile);
    assert DurableNow(s.disk.(logs := logs), m) == DurableNow(s.disk, m);
  }

  lemma DeleteManifestInv(s: State, m: Memory, n: nat)
    requires s.mode == Open(m) && OpenInv(s.disk, s.hist, m) && CanDelete(s, m, DeleteManifest(n))
    ensures Inv(AfterDelete(s, m, DeleteManifest(n)))
  {
    hide MemOk, Stores, Ready, TablesHold, ReaderOk, PinnedOk, Built, ManifestOk, LogsOk;
    var disk := s.disk.(manifests := s.disk.manifests - {n});
    assert disk.manifests[disk.current] == s.disk.manifests[disk.current];
    assert DurableNow(disk, m) == DurableNow(s.disk, m);
  }

  // ---------- crashes, and files that appear while the database is closed ----------

  lemma CrashInv(s: State, m: Memory)
    requires s.mode == Open(m) && OpenInv(s.disk, s.hist, m)
    ensures Inv(AfterCrash(s, m))
  {
    hide Stores, Ready, TablesHold, ReaderOk, PinnedOk, Recoverable, ManifestOk, LogsOk, InstallOk, Slices;
    var w := s.hist + InFlight(m.group);
    forall i | 0 <= i < |s.hist + OnDisk(m.group)| ensures (s.hist + OnDisk(m.group))[i].key.sn == i + 1 {
      assert w[i] == (s.hist + OnDisk(m.group))[i];
    }
  }

  lemma {:induction false} TailIgnoresEmpty(logs: map<nat, Log>, n: nat, from: nat, end: nat)
    requires n !in logs
    ensures Tail(logs[n := []], from, end) == Tail(logs, from, end)
    decreases end
  {
    if from < end {
      TailIgnoresEmpty(logs, n, from, end - 1);
      assert n == end - 1 ==> Flat(logs[n := []][end - 1]) == [];
    }
  }

  lemma StrayInv(s: State, d: Durable, a: Action)
    requires s.mode == Closed(d) && Inv(s) && CanStray(s, d, a)
    ensures Inv(AfterStray(s, d, a))
  {
    hide Stores, Built;
    match a
    case StrayTable(n, _) =>
    case StrayManifest(n, _) =>
    case StrayLog(n) =>
      var bound := if d.bound <= n then n + 1 else d.bound;
      TailIgnoresEmpty(s.disk.logs, n, d.meta.log, bound);
      TailBeyond(s.disk.logs, d.meta.log, d.bound, bound);
  }
}
