/** The storage engine as a state machine: writers, readers, the background thread, crashes and recovery
    (db/db_impl.cc, lines 182-566, 640-876 and 1100-1370; db/version_set.cc, lines 801-1011, 1088-1116
    and 1167-1177).

    One action is what happens between two points at which other threads can run or the machine can
    crash.  The writer at the head of the queue is the only one to act (module `GroupCommit`), and there
    is one background thread.  A file append that a crash interrupts leaves the earlier records of the
    file and either the whole new record or nothing of it (module `LogFormat`). */
module Database {
  import opened DbFormat
  import opened Version
  import opened Storage
  import opened Compaction
  import opened InputSelection
  import opened Builder
  import opened Reads

  const EMPTY: Levels := [[], [], [], [], [], [], []]

  // ---------- the disk ----------

  /** The log number, next file number and last sequence number that an edit carries. */
  datatype Meta = Meta(log: nat, next: nat, last: nat)

  datatype Edit = Edit(files: FileEdit, meta: Option<Meta>)

  /** A log holds records; a record is a batch, here as the numbered entries it stands for. */
  type Log = seq<seq<Entry>>

  datatype Disk = Disk(current: nat, manifests: map<nat, seq<Edit>>, logs: map<nat, Log>,
                       tables: map<nat, seq<Entry>>)

  function Flat(log: Log): seq<Entry> {
    if log == [] then [] else Flat(log[..|log| - 1]) + log[|log| - 1]
  }

  /** The entries of all logs with numbers from `from` on and below `end`, in the order of the numbers. */
  function Tail(logs: map<nat, Log>, from: nat, end: nat): seq<Entry> {
    if end <= from then []
    else Tail(logs, from, end - 1) + if end - 1 in logs then Flat(logs[end - 1]) else []
  }

  function FileEdits(edits: seq<Edit>): seq<FileEdit> {
    seq(|edits|, i requires 0 <= i < |edits| => edits[i].files)
  }

  /** The fields of the last edit that carries them. */
  function LastMeta(edits: seq<Edit>): Option<Meta> {
    if edits == [] then None
    else if edits[|edits| - 1].meta.Some? then edits[|edits| - 1].meta
    else LastMeta(edits[..|edits| - 1])
  }

  function ReloadFile(f: File, tables: map<nat, seq<Entry>>): File {
    f.(entries := if f.number in tables then tables[f.number] else [])
  }

  function ReloadLevel(files: seq<File>, tables: map<nat, seq<Entry>>): seq<File> {
    seq(|files|, i requires 0 <= i < |files| => ReloadFile(files[i], tables))
  }

  /** A version as recovery sees it: the metadata of the manifest, the entries of the table files. */
  function Reload(levels: Levels, tables: map<nat, seq<Entry>>): Levels {
    seq(|levels|, l requires 0 <= l < |levels| => ReloadLevel(levels[l], tables))
  }

  // ---------- memory ----------

  /** A read in progress, with the memtable and version it has pinned.  `imm` says whether it also
      pinned the memtable before `mem`. */
  datatype Reader = Reader(user: UserKey, snapshot: nat, mem: nat, imm: bool, levels: Levels)

  /** The group being written. */
  datatype Group = Group(entries: seq<Entry>, logged: bool, inserted: nat)

  datatype Running = Running(c: Inputs, base: Levels, smallestSnapshot: nat, numbers: set<nat>)

  datatype Kind = Flushing | Compacting | Moving

  /** A version edit on its way through `LogAndApply`. */
  datatype Install = Install(kind: Kind, edit: Edit, after: Levels, logged: bool)

  /** `gens` are the memtables since the database was opened, each as the list of its insertions; the
      last is the current one, and the one before it is the immutable one if `imm`.  `starts` and
      `floor` are auxiliary: the place in the history where each memtable begins, and a bound below
      which nobody reads any more. */
  datatype Memory = Memory(
    gens: seq<seq<Entry>>, starts: seq<nat>, imm: bool, levels: Levels, lastSeq: nat, nextFile: nat,
    logNumber: nat, versionLog: nat, pending: set<nat>, snapshots: multiset<nat>, readers: map<nat, Reader>,
    group: Option<Group>, flush: Option<nat>, compaction: Option<Running>, install: Option<Install>, floor: nat)

  /** Auxiliary, while the database is closed: what the disk stands for. */
  datatype Durable = Durable(levels: Levels, meta: Meta, point: nat, bound: nat)

  datatype Mode = Closed(d: Durable) | Open(m: Memory)

  /** `hist` is the specification: the history of acknowledged writes. */
  datatype State = State(disk: Disk, hist: seq<Entry>, mode: Mode)

  /** Where the flushed part of the history ends. */
  function Point(m: Memory): nat {
    if m.imm && |m.starts| > 1 then m.starts[|m.starts| - 2]
    else if |m.starts| > 0 then m.starts[|m.starts| - 1] else 0
  }

  function MemStart(m: Memory): nat {
    if |m.starts| > 0 then m.starts[|m.starts| - 1] else 0
  }

  function InFlight(group: Option<Group>): seq<Entry> {
    if group.Some? then group.value.entries else []
  }

  /** The part of the group that a crash would not lose. */
  function OnDisk(group: Option<Group>): seq<Entry> {
    if group.Some? && group.value.logged then group.value.entries else []
  }

  function Inserted(group: Option<Group>): nat {
    if group.Some? then group.value.inserted else 0
  }

  // ---------- actions ----------

  datatype Action =
    | WriteStart(entries: seq<Entry>) | WriteLog | WriteInsert | WritePublish
    | SwitchMemTable
    | TakeSnapshot | ReleaseSnapshot(snapshot: nat)
    | StartRead(id: nat, user: UserKey, snapshot: nat) | FinishRead(id: nat)
    | StartFlush | FinishFlush(table: Option<File>, level: nat, after: Levels)
    | StartCompaction(c: Inputs, smallestSnapshot: nat) | StartMove(c: Inputs, after: Levels)
    | AllocateOutput | WriteOutput(number: nat, content: seq<Entry>)
    | FinishCompaction(outs: seq<File>, after: Levels)
    | LogEdit | InstallVersion
    | DeleteTable(number: nat) | DeleteLog(number: nat) | DeleteManifest(number: nat)
    | Crash
    | StrayTable(number: nat, content: seq<Entry>) | StrayManifest(number: nat, edits: seq<Edit>)
    | StrayLog(number: nat)
    | Reopen(manifest: Levels, cuts: seq<nat>, tables: seq<File>, newLog: nat, nextFile: nat, after: Levels)

  ghost predicate Numbered(entries: seq<Entry>, first: nat) {
    forall i :: 0 <= i < |entries| ==> entries[i].key.sn == first + i
  }

  /** The version holds a file with this number. */
  ghost predicate UsesNumber(levels: Levels, n: nat) {
    exists l, f :: 0 <= l < |levels| && f in levels[l] && f.number == n
  }

  /** A version that some reader or the background thread still refers to. */
  ghost predicate Pinned(m: Memory, v: Levels) {
    || v == m.levels
    || (exists id :: id in m.readers && m.readers[id].levels == v)
    || (m.compaction.Some? && m.compaction.value.base == v)
  }

  ghost predicate Unused(m: Memory, n: nat) {
    forall v :: Pinned(m, v) ==> !UsesNumber(v, n)
  }

  predicate AllBelow(s: set<nat>, n: nat) {
    forall k :: k in s ==> k < n
  }

  ghost predicate Idle(m: Memory) {
    m.flush.None? && m.install.None?
  }

  /** `snapshots_.oldest()`, or the last sequence number if there are no snapshots. */
  ghost predicate OldestSnapshot(snapshots: multiset<nat>, lastSeq: nat, s: nat) {
    if snapshots == multiset{} then s == lastSeq
    else s in snapshots && forall t :: t in snapshots ==> s <= t
  }

  ghost predicate CanWrite(s: State, m: Memory, a: Action) {
    match a
    case WriteStart(entries) =>
      m.group.None? && Numbered(entries, m.lastSeq + 1) && m.lastSeq + |entries| < MAX_SEQUENCE
    case WriteLog => m.group.Some? && !m.group.value.logged && m.logNumber in s.disk.logs
    case WriteInsert =>
      m.group.Some? && m.group.value.logged && m.group.value.inserted < |m.group.value.entries|
    case WritePublish =>
      m.group.Some? && m.group.value.logged && m.group.value.inserted == |m.group.value.entries|
    case SwitchMemTable => m.group.None? && !m.imm
    case _ => false
  }

  ghost predicate CanRead(m: Memory, a: Action) {
    match a
    case TakeSnapshot => true
    case ReleaseSnapshot(t) => t in m.snapshots
    case StartRead(id, _, t) => id !in m.readers && (t == m.lastSeq || t in m.snapshots)
    case FinishRead(id) => id in m.readers
    case _ => false
  }

  ghost predicate SameEntries(a: seq<Entry>, b: seq<Entry>) {
    forall e :: e in a <==> e in b
  }

  /** The table built from the immutable memtable: none if that is empty. */
  ghost predicate FlushedTable(m: Memory, number: nat, table: Option<File>, level: nat)
    requires |m.gens| > 1
  {
    match table
    case None => m.gens[|m.gens| - 2] == []
    case Some(f) => f.number == number && FileOk(f) && SameEntries(f.entries, m.gens[|m.gens| - 2]) &&
                    FlushLevel(m.levels, f, level)
  }

  function FlushEdit(table: Option<File>, level: nat): FileEdit {
    FileEdit({}, if table.Some? then [(level, table.value)] else [])
  }

  /** What the loop of module `CompactionJob` has produced and written under its numbers. */
  ghost predicate WrittenOutputs(r: Running, tables: map<nat, seq<Entry>>, outs: seq<File>) {
    && Disjoint(outs)
    && (forall o :: o in outs ==> FileOk(o))
    && (forall i, j :: 0 <= i < j < |outs| ==> outs[i].number != outs[j].number)
    && (forall o :: o in outs ==> o.number in r.numbers && o.number in tables && tables[o.number] == o.entries)
    && Compacted(r.c, r.base, r.smallestSnapshot, outs)
  }

  ghost predicate CanCompact(s: State, m: Memory, a: Action) {
    match a
    case StartFlush => m.imm && Idle(m)
    case FinishFlush(table, level, after) =>
      m.imm && |m.gens| > 1 && m.flush.Some? && m.install.None? &&
      FlushedTable(m, m.flush.value, table, level) && Applied(m.levels, FlushEdit(table, level), after)
    case StartCompaction(c, t) =>
      Idle(m) && m.compaction.None? && OldestSnapshot(m.snapshots, m.lastSeq, t) &&
      Picked(m.levels, c) && BoundaryClosed(m.levels, c)
    case StartMove(c, after) =>
      Idle(m) && m.compaction.None? && Picked(m.levels, c) && |c.in0| == 1 && c.in1 == [] &&
      Applied(m.levels, CompactionEdit(c, c.in0), after)
    case AllocateOutput => Idle(m) && m.compaction.Some?
    case WriteOutput(n, _) => m.install.None? && n in m.pending
    case FinishCompaction(outs, after) =>
      Idle(m) && m.compaction.Some? && WrittenOutputs(m.compaction.value, s.disk.tables, outs) &&
      Applied(m.levels, CompactionEdit(m.compaction.value.c, outs), after)
    case LogEdit => m.install.Some? && !m.install.value.logged && s.disk.current in s.disk.manifests
    case InstallVersion => m.install.Some? && m.install.value.logged
    case _ => false
  }

  /** `DeleteObsoleteFiles` runs in the background thread only, so not between the end of a flush and the
      installation of its version, when the new table is neither pending nor in any version. */
  ghost predicate CanDelete(s: State, m: Memory, a: Action) {
    && Idle(m)
    && match a
       case DeleteTable(n) => n !in m.pending && Unused(m, n)
       case DeleteLog(n) => n < m.versionLog
       case DeleteManifest(n) => n < s.disk.current
       case _ => false
  }

  /** While the database is being opened, files may appear that nothing refers to yet: tables under
      numbers that the manifest counts as unused, manifests other than the current one, and a log. */
  ghost predicate CanStray(s: State, d: Durable, a: Action) {
    match a
    case StrayTable(n, _) => n >= d.meta.next
    case StrayManifest(n, _) => n != s.disk.current
    case StrayLog(n) => AllBelow(s.disk.logs.Keys, n)
    case _ => false
  }

  /** Cut points from the beginning of `tail` to its end. */
  predicate CutsOk(tail: seq<Entry>, cuts: seq<nat>) {
    && cuts != [] && cuts[0] == 0 && cuts[|cuts| - 1] == |tail|
    && (forall i, j :: 0 <= i < j < |cuts| ==> cuts[i] < cuts[j])
  }

  ghost predicate HoldsChunk(f: File, tail: seq<Entry>, begin: nat, end: nat) {
    begin <= end <= |tail| && SameEntries(f.entries, tail[begin..end])
  }

  /** The logs are replayed into memtables, each of which becomes a level-0 table; `cuts` says where one
      memtable ends and the next begins; every memtable here is non-empty. */
  ghost predicate RecoveredTables(tail: seq<Entry>, cuts: seq<nat>, tables: seq<File>, first: nat) {
    && |cuts| == |tables| + 1
    && CutsOk(tail, cuts)
    && (forall i :: 0 <= i < |tables| ==> FileOk(tables[i]) && tables[i].number >= first)
    && (forall i, j :: 0 <= i < j < |tables| ==> tables[i].number < tables[j].number)
    && (forall i :: 0 <= i < |tables| ==> HoldsChunk(tables[i], tail, cuts[i], cuts[i + 1]))
  }

  function Level0Files(tables: seq<File>): seq<(nat, File)> {
    seq(|tables|, i requires 0 <= i < |tables| => (0, tables[i]))
  }

  /** `WriteSnapshot`: every file of the version. */
  function LevelFiles(files: seq<File>, l: nat): seq<(nat, File)> {
    seq(|files|, i requires 0 <= i < |files| => (l, files[i]))
  }

  function SnapshotFiles(levels: Levels, l: nat): seq<(nat, File)>
    requires l <= |levels|
  {
    if l == 0 then [] else SnapshotFiles(levels, l - 1) + LevelFiles(levels[l - 1], l - 1)
  }

  ghost predicate ReopenFrom(disk: Disk, edits: seq<Edit>, meta: Meta, a: Action)
    requires a.Reopen?
  {
    && LastMeta(edits) == Some(meta)
    && Built(EMPTY, FileEdits(edits), a.manifest)
    && AllBelow(disk.logs.Keys, a.newLog)
    && meta.next < a.newLog && a.newLog < a.nextFile
    && RecoveredTables(Tail(disk.logs, meta.log, a.newLog), a.cuts, a.tables, meta.next + 1)
    && (forall i :: 0 <= i < |a.tables| ==> a.tables[i].number < a.nextFile)
    && Applied(Reload(a.manifest, disk.tables), FileEdit({}, Level0Files(a.tables)), a.after)
  }

  ghost predicate CanReopen(s: State, a: Action)
    requires a.Reopen?
  {
    && s.disk.current in s.disk.manifests
    && LastMeta(s.disk.manifests[s.disk.current]).Some?
    && ReopenFrom(s.disk, s.disk.manifests[s.disk.current], LastMeta(s.disk.manifests[s.disk.current]).value, a)
  }

  ghost predicate Enabled(s: State, a: Action) {
    match s.mode
    case Open(m) =>
      |m.gens| == |m.starts| > 0 &&
      (CanWrite(s, m, a) || CanRead(m, a) || CanCompact(s, m, a) || CanDelete(s, m, a) || a.Crash?)
    case Closed(d) => CanStray(s, d, a) || (a.Reopen? && CanReopen(s, a))
  }

  // ---------- effects ----------

  function AppendMem(gens: seq<seq<Entry>>, e: Entry): seq<seq<Entry>>
    requires |gens| > 0
  {
    gens[|gens| - 1 := gens[|gens| - 1] + [e]]
  }

  ghost function AfterWrite(s: State, m: Memory, a: Action): State
    requires |m.gens| == |m.starts| > 0 && CanWrite(s, m, a)
  {
    match a
    case WriteStart(entries) => s.(mode := Open(m.(group := Some(Group(entries, false, 0)))))
    case WriteLog =>
      var g := m.group.value;
      State(s.disk.(logs := s.disk.logs[m.logNumber := s.disk.logs[m.logNumber] + [g.entries]]), s.hist,
            Open(m.(group := Some(g.(logged := true)))))
    case WriteInsert =>
      var g := m.group.value;
      s.(mode := Open(m.(gens := AppendMem(m.gens, g.entries[g.inserted]),
                         group := Some(g.(inserted := g.inserted + 1)))))
    case WritePublish =>
      var g := m.group.value;
      State(s.disk, s.hist + g.entries, Open(m.(lastSeq := m.lastSeq + |g.entries|, group := None)))
    case SwitchMemTable =>
      State(s.disk.(logs := s.disk.logs[m.nextFile := []]), s.hist,
            Open(m.(gens := m.gens + [[]], starts := m.starts + [m.lastSeq], imm := true,
                    logNumber := m.nextFile, nextFile := m.nextFile + 1)))
  }

  ghost function AfterRead(s: State, m: Memory, a: Action): State
    requires |m.gens| > 0 && CanRead(m, a)
  {
    match a
    case TakeSnapshot => s.(mode := Open(m.(snapshots := m.snapshots + multiset{m.lastSeq})))
    case ReleaseSnapshot(t) => s.(mode := Open(m.(snapshots := m.snapshots - multiset{t})))
    case StartRead(id, user, t) =>
      s.(mode := Open(m.(readers := m.readers[id := Reader(user, t, |m.gens| - 1, m.imm, m.levels)])))
    case FinishRead(id) => s.(mode := Open(m.(readers := m.readers - {id})))
  }

  /** `LogAndApply` fills in the numbers before it releases the mutex. */
  function Prepare(m: Memory, kind: Kind, files: FileEdit, after: Levels): Option<Install> {
    var log := if kind.Flushing? then m.logNumber else m.versionLog;
    Some(Install(kind, Edit(files, Some(Meta(log, m.nextFile, m.lastSeq))), after, false))
  }

  ghost function AfterCompact(s: State, m: Memory, a: Action): State
    requires |m.gens| > 0 && CanCompact(s, m, a)
  {
    match a
    case StartFlush =>
      s.(mode := Open(m.(flush := Some(m.nextFile), pending := m.pending + {m.nextFile},
                         nextFile := m.nextFile + 1)))
    case FinishFlush(table, level, after) =>
      State(if table.Some? then s.disk.(tables := s.disk.tables[m.flush.value := table.value.entries]) else s.disk,
            s.hist,
            Open(m.(flush := None, pending := m.pending - {m.flush.value},
                    install := Prepare(m, Flushing, FlushEdit(table, level), after))))
    case StartCompaction(c, t) =>
      s.(mode := Open(m.(compaction := Some(Running(c, m.levels, t, {})))))
    case StartMove(c, after) =>
      s.(mode := Open(m.(install := Prepare(m, Moving, CompactionEdit(c, c.in0), after))))
    case AllocateOutput =>
      var r := m.compaction.value;
      s.(mode := Open(m.(compaction := Some(r.(numbers := r.numbers + {m.nextFile})),
                         pending := m.pending + {m.nextFile}, nextFile := m.nextFile + 1)))
    case WriteOutput(n, content) => s.(disk := s.disk.(tables := s.disk.tables[n := content]))
    case FinishCompaction(outs, after) =>
      s.(mode := Open(m.(install := Prepare(m, Compacting, CompactionEdit(m.compaction.value.c, outs), after))))
    case LogEdit =>
      var i := m.install.value;
      State(s.disk.(manifests := s.disk.manifests[s.disk.current := s.disk.manifests[s.disk.current] + [i.edit]]),
            s.hist, Open(m.(install := Some(i.(logged := true)))))
    case InstallVersion =>
      var i := m.install.value;
      var n := m.(levels := i.after, install := None,
                  versionLog := if i.edit.meta.Some? then i.edit.meta.value.log else m.versionLog);
      s.(mode := Open(
           match i.kind
           case Flushing => n.(imm := false)
           case Moving => n
           case Compacting =>
             if n.compaction.None? then n else
             var t := n.compaction.value.smallestSnapshot;
             n.(compaction := None, pending := n.pending - n.compaction.value.numbers,
                floor := if n.floor < t then t else n.floor)))
  }

  ghost function AfterDelete(s: State, m: Memory, a: Action): State
    requires CanDelete(s, m, a)
  {
    match a
    case DeleteTable(n) => s.(disk := s.disk.(tables := s.disk.tables - {n}))
    case DeleteLog(n) => s.(disk := s.disk.(logs := s.disk.logs - {n}))
    case DeleteManifest(n) => s.(disk := s.disk.(manifests := s.disk.manifests - {n}))
  }

  predicate Logged(m: Memory) {
    m.install.Some? && m.install.value.logged
  }

  /** What recovery would find if the machine crashed now. */
  function DurableNow(disk: Disk, m: Memory): Durable {
    var edits := if disk.current in disk.manifests then disk.manifests[disk.current] else [];
    var meta := if LastMeta(edits).Some? then LastMeta(edits).value else Meta(0, 0, 0);
    Durable(if Logged(m) then m.install.value.after else m.levels, meta,
            if Logged(m) && m.install.value.kind.Flushing? then MemStart(m) else Point(m), m.nextFile)
  }

  /** A crash leaves the disk.  Of the group in flight it leaves all or nothing, depending on whether its
      record had reached the log. */
  ghost function AfterCrash(s: State, m: Memory): State {
    State(s.disk, s.hist + OnDisk(m.group), Closed(DurableNow(s.disk, m)))
  }

  ghost function AfterStray(s: State, d: Durable, a: Action): State
    requires CanStray(s, d, a)
  {
    match a
    case StrayTable(n, content) => s.(disk := s.disk.(tables := s.disk.tables[n := content]))
    case StrayManifest(n, edits) => s.(disk := s.disk.(manifests := s.disk.manifests[n := edits]))
    case StrayLog(n) =>
      State(s.disk.(logs := s.disk.logs[n := []]), s.hist,
            Closed(d.(bound := if d.bound <= n then n + 1 else d.bound)))
  }

  function WriteTables(disk: map<nat, seq<Entry>>, tables: seq<File>): map<nat, seq<Entry>> {
    if tables == [] then disk
    else WriteTables(disk, tables[..|tables| - 1])[tables[|tables| - 1].number := tables[|tables| - 1].entries]
  }

  /** The last sequence number that recovery computes: the maximum of the manifest's and the logs'. */
  function MaxSequence(entries: seq<Entry>, n: nat): nat {
    if entries == [] then n
    else
      var rest := MaxSequence(entries[..|entries| - 1], n);
      var sn := entries[|entries| - 1].key.sn;
      if sn > rest then sn else rest
  }

  /** The new manifest: a snapshot of the recovered version, then the recovered tables. */
  function NewManifest(s: State, a: Action): seq<Edit>
    requires a.Reopen? && s.disk.current in s.disk.manifests
    requires LastMeta(s.disk.manifests[s.disk.current]).Some?
  {
    var meta := LastMeta(s.disk.manifests[s.disk.current]).value;
    var version := Reload(a.manifest, s.disk.tables);
    var lastSeq := MaxSequence(Tail(s.disk.logs, meta.log, a.newLog), meta.last);
    [Edit(FileEdit({}, SnapshotFiles(version, |version|)), None),
     Edit(FileEdit({}, Level0Files(a.tables)), Some(Meta(a.newLog, a.nextFile, lastSeq)))]
  }

  /** Opening writes the recovered tables, an empty log and a new manifest, and then switches CURRENT. */
  ghost function AfterReopen(s: State, a: Action): State
    requires a.Reopen? && CanReopen(s, a)
  {
    var meta := LastMeta(s.disk.manifests[s.disk.current]).value;
    var lastSeq := MaxSequence(Tail(s.disk.logs, meta.log, a.newLog), meta.last);
    State(Disk(meta.next, s.disk.manifests[meta.next := NewManifest(s, a)], s.disk.logs[a.newLog := []],
               WriteTables(s.disk.tables, a.tables)),
          s.hist,
          Open(Memory([[]], [lastSeq], false, a.after, lastSeq, a.nextFile, a.newLog, a.newLog, {}, multiset{},
                      map[], None, None, None, None, lastSeq)))
  }

  ghost function After(s: State, a: Action): State
    requires Enabled(s, a)
  {
    match s.mode
    case Open(m) =>
      if a.Crash? then AfterCrash(s, m)
      else if CanWrite(s, m, a) then AfterWrite(s, m, a)
      else if CanRead(m, a) then AfterRead(s, m, a)
      else if CanCompact(s, m, a) then AfterCompact(s, m, a)
      else AfterDelete(s, m, a)
    case Closed(d) => if a.Reopen? then AfterReopen(s, a) else AfterStray(s, d, a)
  }

  /** A new database: one manifest, no files. */
  ghost predicate Init(s: State) {
    && s.disk == Disk(1, map[1 := [Edit(FileEdit({}, []), Some(Meta(0, 2, 0)))]], map[], map[])
    && s.hist == []
    && s.mode == Closed(Durable(EMPTY, Meta(0, 2, 0), 0, 0))
  }
}
