/** All schedules of concurrent writers and readers (db/db_impl.cc, lines 1185-1256). One action is what happens
    between two points at which other threads can run: the mutex is released while a writer waits, while it makes
    room, and while it writes its group to the log and the memtable. */
module WriterQueue {
  import opened DbFormat
  import opened WriteBatch
  import opened GroupCommit

  /** One call of `Write`; there are no records when there is no batch. */
  datatype Write = Write(records: seq<Record>, request: Request)

  datatype Leader =
    | NoLeader
    | MakingRoom
    | Writing(n: nat, sn: nat, records: seq<Record>, appended: bool, synced: bool, inserted: nat)

  datatype Logged = Logged(sn: nat, records: seq<Record>)

  /** `writes` are the calls in the order of their arrival, which are also their identities; `queue` is `writers_`, and
      `done` are the calls that have been completed, in order. `synced` is the number of log records that are known to be
      on disk. `snapshots` are the sequence numbers that readers have read. */
  datatype State = State(
    writes: seq<Write>,
    queue: seq<nat>,
    done: seq<nat>,
    leader: Leader,
    log: seq<Logged>,
    synced: nat,
    memtable: seq<(nat, Record)>,
    lastSequence: nat,
    snapshots: set<nat>)

  const INITIAL := State([], [], [], NoLeader, [], 0, [], 0, {})

  datatype Action =
    | Enqueue(w: Write)
    | Lead
    | Build
    | AppendToLog
    | Sync
    | InsertOne
    | Finish
    | ReadSequence

  function Queued(s: State): seq<Request>
    requires forall i :: 0 <= i < |s.queue| ==> s.queue[i] < |s.writes|
  {
    seq(|s.queue|, i requires 0 <= i < |s.queue| => s.writes[s.queue[i]].request)
  }

  /** The records of some calls, in order. */
  function Batches(writes: seq<Write>, ids: seq<nat>): seq<Record>
    requires forall i :: 0 <= i < |ids| ==> ids[i] < |writes|
  {
    if ids == [] then [] else Batches(writes, ids[..|ids| - 1]) + writes[ids[|ids| - 1]].records
  }

  predicate InRange(s: State) {
    (forall i :: 0 <= i < |s.queue| ==> s.queue[i] < |s.writes|) && forall i :: 0 <= i < |s.done| ==> s.done[i] < |s.writes|
  }

  predicate Enabled(s: State, a: Action) {
    InRange(s) &&
    match a
    case Enqueue(w) => w.request.size.None? ==> w.records == []
    case Lead => s.queue != [] && s.leader.NoLeader?
    case Build => s.queue != [] && s.leader.MakingRoom? && s.writes[s.queue[0]].request.size.Some?
    case AppendToLog => s.leader.Writing? && !s.leader.appended
    case Sync => s.leader.Writing? && s.leader.appended && !s.leader.synced && s.queue != [] && s.writes[s.queue[0]].request.sync
    case InsertOne =>
      && s.leader.Writing? && s.leader.appended && s.leader.inserted < |s.leader.records|
      && s.queue != [] && (s.writes[s.queue[0]].request.sync ==> s.leader.synced)
    case Finish =>
      s.queue != [] &&
      (match s.leader
       case NoLeader => false
       case MakingRoom => s.writes[s.queue[0]].request.size.None?
       case Writing(n, _, records, appended, synced, inserted) =>
         n <= |s.queue| && appended && inserted == |records| && (s.writes[s.queue[0]].request.sync ==> synced))
    case ReadSequence => true
  }

  /** The number of writers that the leader completes. */
  function Completed(s: State): nat {
    if s.leader.Writing? then s.leader.n else 1
  }

  function Next(s: State, a: Action): State
    requires Enabled(s, a)
  {
    match a
    case Enqueue(w) => s.(writes := s.writes + [w], queue := s.queue + [|s.writes|])
    case Lead => s.(leader := MakingRoom)
    case Build =>
      var n := GroupSize(Queued(s));
      s.(leader := Writing(n, s.lastSequence + 1, Batches(s.writes, s.queue[..n]), false, false, 0))
    case AppendToLog =>
      s.(log := s.log + [Logged(s.leader.sn, s.leader.records)], leader := s.leader.(appended := true))
    case Sync => s.(synced := |s.log|, leader := s.leader.(synced := true))
    case InsertOne =>
      var i := s.leader.inserted;
      s.(memtable := s.memtable + [(s.leader.sn + i, s.leader.records[i])], leader := s.leader.(inserted := i + 1))
    case Finish =>
      var n := Completed(s);
      var count := if s.leader.Writing? then |s.leader.records| else 0;
      s.(done := s.done + s.queue[..n], queue := s.queue[n..], leader := NoLeader,
         lastSequence := s.lastSequence + count)
    case ReadSequence => s.(snapshots := s.snapshots + {s.lastSequence})
  }

  // ---------- the invariant ----------

  function Ids(n: nat): (r: seq<nat>)
    ensures |r| == n && forall i :: 0 <= i < n ==> r[i] == i
  {
    seq(n, i => i)
  }

  function FlatLog(log: seq<Logged>): seq<Record> {
    if log == [] then [] else FlatLog(log[..|log| - 1]) + log[|log| - 1].records
  }

  /** Sequence numbers run through the log without gaps. */
  predicate Consecutive(log: seq<Logged>) {
    forall i :: 0 <= i < |log| ==> log[i].sn == |FlatLog(log[..i])| + 1
  }

  /** A reader sees all of a group or nothing of it. */
  predicate Whole(snapshot: nat, g: Logged) {
    snapshot + 1 <= g.sn || snapshot + 1 >= g.sn + |g.records|
  }

  predicate LeaderOk(s: State)
    requires InRange(s)
  {
    match s.leader
    case NoLeader => true
    case MakingRoom => s.queue != []
    case Writing(n, sn, records, appended, synced, inserted) =>
      && 0 < n <= |s.queue|
      && s.writes[s.queue[0]].request.size.Some?
      && (forall i :: 0 <= i < n ==> s.writes[s.queue[i]].request.sync ==> s.writes[s.queue[0]].request.sync)
      && sn == s.lastSequence + 1
      && records == Batches(s.writes, s.queue[..n])
      && inserted <= |records|
      && (inserted > 0 || synced ==> appended)
      && (appended ==> s.log != [] && s.log[|s.log| - 1] == Logged(sn, records))
      && (synced ==> s.synced == |s.log|)
  }

  /** What the leader has added to the log and to the memtable. */
  function LoggedNow(s: State): seq<Record> {
    if s.leader.Writing? && s.leader.appended then s.leader.records else []
  }

  function InsertedNow(s: State): seq<Record> {
    if s.leader.Writing? && s.leader.inserted <= |s.leader.records| then s.leader.records[..s.leader.inserted] else []
  }

  predicate SyncWrite(w: Write) {
    w.request.sync && w.request.size.Some?
  }

  /** Acknowledged sync writes lie in the synced part of the log. */
  predicate Durable(s: State)
    requires InRange(s) && s.synced <= |s.log|
  {
    forall i :: 0 <= i < |s.done| && SyncWrite(s.writes[s.done[i]]) ==>
      |Batches(s.writes, s.done[..i + 1])| <= |FlatLog(s.log[..s.synced])|
  }

  predicate History(s: State)
    requires InRange(s)
  {
    var committed := Batches(s.writes, s.done);
    && s.lastSequence == |committed|
    && FlatLog(s.log) == committed + LoggedNow(s)
    && s.memtable == Numbered(1, committed + InsertedNow(s))
    && Consecutive(s.log)
  }

  predicate Readers(s: State) {
    forall r :: r in s.snapshots ==> r <= s.lastSequence && SeesWhole(r, s.log)
  }

  predicate SeesWhole(snapshot: nat, log: seq<Logged>) {
    forall i :: 0 <= i < |log| ==> Whole(snapshot, log[i])
  }

  predicate NoBatchNoRecords(s: State) {
    forall i :: 0 <= i < |s.writes| && s.writes[i].request.size.None? ==> s.writes[i].records == []
  }

  predicate Inv(s: State) {
    && InRange(s)
    && s.done + s.queue == Ids(|s.writes|)
    && LeaderOk(s)
    && History(s)
    && Readers(s)
    && s.synced <= |s.log|
    && Durable(s)
    && NoBatchNoRecords(s)
  }

  // ---------- batches and logs ----------

  lemma {:induction false} BatchesConcat(writes: seq<Write>, a: seq<nat>, b: seq<nat>)
    requires forall i :: 0 <= i < |a| ==> a[i] < |writes|
    requires forall i :: 0 <= i < |b| ==> b[i] < |writes|
    ensures forall i :: 0 <= i < |a + b| ==> (a + b)[i] < |writes|
    ensures Batches(writes, a + b) == Batches(writes, a) + Batches(writes, b)
    decreases |b|
  {
    if b == [] {
      assert a + b == a;
    } else {
      var front := b[..|b| - 1];
      assert (a + b)[..|a + b| - 1] == a + front;
      BatchesConcat(writes, a, front);
      assert Batches(writes, a) + (Batches(writes, front) + writes[b[|b| - 1]].records) ==
             Batches(writes, a) + Batches(writes, front) + writes[b[|b| - 1]].records;
    }
  }

  lemma {:induction false} BatchesGrow(writes: seq<Write>, w: Write, ids: seq<nat>)
    requires forall i :: 0 <= i < |ids| ==> ids[i] < |writes|
    ensures Batches(writes + [w], ids) == Batches(writes, ids)
    decreases |ids|
  {
    if ids != [] {
      BatchesGrow(writes, w, ids[..|ids| - 1]);
    }
  }

  lemma BatchesPrefix(writes: seq<Write>, ids: seq<nat>, n: nat)
    requires n <= |ids| && forall i :: 0 <= i < |ids| ==> ids[i] < |writes|
    ensures |Batches(writes, ids[..n])| <= |Batches(writes, ids)|
  {
    BatchesConcat(writes, ids[..n], ids[n..]);
    assert ids == ids[..n] + ids[n..];
  }

  lemma FlatLogAppend(log: seq<Logged>, g: Logged)
    ensures FlatLog(log + [g]) == FlatLog(log) + g.records
  {
    assert (log + [g])[..|log|] == log;
  }

  lemma {:induction false} FlatLogPrefix(log: seq<Logged>, n: nat)
    requires n <= |log|
    ensures |FlatLog(log[..n])| <= |FlatLog(log)|
    decreases |log|
  {
    if n == |log| {
      assert log[..n] == log;
    } else {
      FlatLogPrefix(log[..|log| - 1], n);
      assert log[..|log| - 1][..n] == log[..n];
    }
  }

  lemma ConsecutiveAppend(log: seq<Logged>, g: Logged)
    requires Consecutive(log) && g.sn == |FlatLog(log)| + 1
    ensures Consecutive(log + [g])
  {
    var more := log + [g];
    forall i | 0 <= i < |more| ensures more[i].sn == |FlatLog(more[..i])| + 1 {
      assert more[..i] == log[..i];
      if i == |log| {
        assert log[..i] == log;
      }
    }
  }

  /** Where a group of the log ends. */
  lemma GroupEnd(log: seq<Logged>, i: nat)
    requires Consecutive(log) && i < |log|
    ensures log[i].sn + |log[i].records| == |FlatLog(log[..i + 1])| + 1
  {
    assert log[..i + 1] == log[..i] + [log[i]];
    FlatLogAppend(log[..i], log[i]);
  }

  lemma NumberedAppend(records: seq<Record>, r: Record)
    ensures Numbered(1, records + [r]) == Numbered(1, records) + [(1 + |records|, r)]
  {
  }

  // ---------- what each action keeps ----------

  lemma EnqueueInv(s: State, w: Write)
    requires Inv(s) && Enabled(s, Enqueue(w))
    ensures Inv(Next(s, Enqueue(w)))
  {
    hide Consecutive, SeesWhole, Numbered, FlatLog, Batches;
    var t := Next(s, Enqueue(w));
    assert t.done + t.queue == (s.done + s.queue) + [|s.writes|] == Ids(|t.writes|);
    BatchesGrow(s.writes, w, s.done);
    if s.leader.Writing? {
      assert t.queue[..s.leader.n] == s.queue[..s.leader.n];
      BatchesGrow(s.writes, w, s.queue[..s.leader.n]);
    }
    forall i | 0 <= i < |t.done| && SyncWrite(t.writes[t.done[i]])
      ensures |Batches(t.writes, t.done[..i + 1])| <= |FlatLog(t.log[..t.synced])|
    {
      assert SyncWrite(s.writes[s.done[i]]);
      BatchesGrow(s.writes, w, s.done[..i + 1]);
    }
  }

  lemma BuildInv(s: State)
    requires Inv(s) && Enabled(s, Build)
    ensures Inv(Next(s, Build))
  {
    hide Consecutive, SeesWhole, Numbered, FlatLog, Batches, Durable;
    var q := Queued(s);
    GroupIs(q);
    var n := GroupSize(q);
    forall i | 0 <= i < n && s.writes[s.queue[i]].request.sync ensures s.writes[s.queue[0]].request.sync {
      assert q[i].sync ==> q[0].sync;
    }
    DurableKept(s, Next(s, Build));
  }

  lemma AppendInv(s: State)
    requires Inv(s) && Enabled(s, AppendToLog)
    ensures Inv(Next(s, AppendToLog))
  {
    hide Consecutive, Numbered, FlatLog, Batches;
    var g := Logged(s.leader.sn, s.leader.records);
    var t := Next(s, AppendToLog);
    var committed := Batches(s.writes, s.done);
    FlatLogAppend(s.log, g);
    assert committed + LoggedNow(s) == committed;
    ConsecutiveAppend(s.log, g);
    assert t.log[..t.synced] == s.log[..s.synced];
    forall r | r in t.snapshots ensures SeesWhole(r, t.log) {
      forall i | 0 <= i < |t.log| ensures Whole(r, t.log[i]) {
        assert i < |s.log| ==> Whole(r, s.log[i]);
      }
    }
  }

  lemma SyncInv(s: State)
    requires Inv(s) && Enabled(s, Sync)
    ensures Inv(Next(s, Sync))
  {
    hide Consecutive, Numbered, FlatLog, Batches, SeesWhole;
    var t := Next(s, Sync);
    FlatLogPrefix(s.log, s.synced);
    assert t.log[..t.synced] == s.log;
  }

  lemma InsertInv(s: State)
    requires Inv(s) && Enabled(s, InsertOne)
    ensures Inv(Next(s, InsertOne))
  {
    hide Consecutive, Numbered, FlatLog, Batches, SeesWhole, Durable;
    var t := Next(s, InsertOne);
    var committed, i := Batches(s.writes, s.done), s.leader.inserted;
    var r := s.leader.records[i];
    assert s.leader.records[..i + 1] == s.leader.records[..i] + [r];
    assert committed + (InsertedNow(s) + [r]) == committed + InsertedNow(s) + [r];
    NumberedAppend(committed + InsertedNow(s), r);
    DurableKept(s, t);
  }

  lemma DurableKept(s: State, t: State)
    requires InRange(s) && InRange(t) && s.synced <= |s.log| && Durable(s)
    requires t.done == s.done && t.writes == s.writes && t.log == s.log && t.synced == s.synced
    ensures Durable(t)
  {
  }

  /** The completed writers' batches, with those of this group, are what the log and the memtable hold. */
  lemma FinishBatches(s: State)
    requires Inv(s) && Enabled(s, Finish)
    ensures InRange(Next(s, Finish))
    ensures
      var all := Batches(s.writes, s.done + s.queue[..Completed(s)]);
      && FlatLog(s.log) == all && s.memtable == Numbered(1, all)
      && Next(s, Finish).lastSequence == |all|
  {
    hide Consecutive, Numbered, FlatLog, Readers, Durable, Batches;
    var n, committed := Completed(s), Batches(s.writes, s.done);
    BatchesConcat(s.writes, s.done, s.queue[..n]);
    if s.leader.MakingRoom? {
      assert s.queue[..1] == [s.queue[0]];
      NoRecords(s);
      assert committed + [] == committed;
    } else {
      assert s.leader.records[..s.leader.inserted] == s.leader.records;
    }
  }

  lemma NoRecords(s: State)
    requires Inv(s) && Enabled(s, Finish) && s.leader.MakingRoom?
    ensures Batches(s.writes, [s.queue[0]]) == []
  {
    hide Consecutive, Numbered, FlatLog, Readers, Durable, History, LeaderOk;
    assert Batches(s.writes, [s.queue[0]]) == Batches(s.writes, []) + s.writes[s.queue[0]].records;
  }

  lemma FinishHistory(s: State)
    requires Inv(s) && Enabled(s, Finish)
    ensures InRange(Next(s, Finish))
    ensures History(Next(s, Finish)) && Batches(s.writes, s.done + s.queue[..Completed(s)]) == FlatLog(s.log)
  {
    hide Consecutive, Numbered, FlatLog, Readers, Durable, Batches, LeaderOk;
    FinishBatches(s);
    var all := Batches(s.writes, s.done + s.queue[..Completed(s)]);
    assert all + [] == all;
  }

  lemma FinishDurable(s: State, i: nat)
    requires Inv(s) && Enabled(s, Finish) && InRange(Next(s, Finish))
    requires i < |Next(s, Finish).done| && SyncWrite(s.writes[Next(s, Finish).done[i]])
    ensures |Batches(s.writes, Next(s, Finish).done[..i + 1])| <= |FlatLog(s.log[..s.synced])|
  {
    hide Consecutive, Numbered, FlatLog, SeesWhole, Batches, History;
    var t := Next(s, Finish);
    if i < |s.done| {
      assert t.done[..i + 1] == s.done[..i + 1];
    } else {
      var k := i - |s.done|;
      assert t.done[i] == s.queue[k];
      FinishHistory(s);
      BatchesPrefix(t.writes, t.done, i + 1);
      assert s.leader.Writing? && s.writes[s.queue[0]].request.sync;
      assert s.log[..s.synced] == s.log;
    }
  }

  lemma FinishInv(s: State)
    requires Inv(s) && Enabled(s, Finish)
    ensures Inv(Next(s, Finish))
  {
    hide Consecutive, Numbered, FlatLog, SeesWhole, Batches, History;
    var t, n := Next(s, Finish), Completed(s);
    FinishHistory(s);
    assert s.queue == s.queue[..n] + s.queue[n..];
    assert t.done + t.queue == s.done + s.queue;
    forall i | 0 <= i < |t.done| && SyncWrite(t.writes[t.done[i]])
      ensures |Batches(t.writes, t.done[..i + 1])| <= |FlatLog(t.log[..t.synced])|
    {
      FinishDurable(s, i);
    }
  }

  /** Between groups, and while a group is being written, the published sequence number is at the end of a group. */
  lemma SeesWholeNow(s: State)
    requires Inv(s)
    ensures SeesWhole(s.lastSequence, s.log)
  {
    hide Numbered, FlatLog, Batches, Durable;
    var n := |s.log| - 1;
    forall i | 0 <= i < |s.log| ensures Whole(s.lastSequence, s.log[i]) {
      GroupEnd(s.log, i);
      if s.leader.Writing? && s.leader.appended {
        if i < n {
          FlatLogPrefix(s.log[..n], i + 1);
          assert s.log[..n][..i + 1] == s.log[..i + 1];
          assert s.log == s.log[..n] + [s.log[n]];
          FlatLogAppend(s.log[..n], s.log[n]);
        }
      } else {
        FlatLogPrefix(s.log, i + 1);
      }
    }
  }

  lemma ReadInv(s: State)
    requires Inv(s)
    ensures Inv(Next(s, ReadSequence))
  {
    hide Consecutive, Numbered, FlatLog, SeesWhole, Batches;
    SeesWholeNow(s);
    DurableKept(s, Next(s, ReadSequence));
  }

  lemma StepInv(s: State, a: Action)
    requires Inv(s) && Enabled(s, a)
    ensures Inv(Next(s, a))
  {
    hide Consecutive, Numbered, FlatLog, SeesWhole, Batches;
    match a
    case Enqueue(w) => EnqueueInv(s, w);
    case Lead => DurableKept(s, Next(s, Lead));
    case Build => BuildInv(s);
    case AppendToLog => AppendInv(s);
    case Sync => SyncInv(s);
    case InsertOne => InsertInv(s);
    case Finish => FinishInv(s);
    case ReadSequence => ReadInv(s);
  }

  // ---------- whole runs ----------

  predicate Schedule(run: seq<State>, actions: seq<Action>) {
    && |run| == |actions| + 1
    && run[0] == INITIAL
    && forall i :: 0 <= i < |actions| ==> Enabled(run[i], actions[i]) && run[i + 1] == Next(run[i], actions[i])
  }

  lemma {:induction false} ScheduleInv(run: seq<State>, actions: seq<Action>, i: nat)
    requires Schedule(run, actions) && i < |run|
    ensures Inv(run[i])
  {
    hide Inv, Enabled, Next;
    if i == 0 {
      InitialInv();
    } else {
      ScheduleInv(run, actions, i - 1);
      assert Enabled(run[i - 1], actions[i - 1]);
      StepInv(run[i - 1], actions[i - 1]);
    }
  }

  lemma InitialInv()
    ensures Inv(INITIAL)
  {
  }

  /** Over every schedule, writers complete once each and in the order of the queue: those completed are the first ones
      to have arrived, and the others wait. */
  lemma CompletedInOrder(run: seq<State>, actions: seq<Action>, i: nat)
    requires Schedule(run, actions) && i < |run|
    ensures run[i].done == Ids(|run[i].done|)
    ensures |run[i].done| + |run[i].queue| == |run[i].writes|
    ensures forall k :: 0 <= k < |run[i].queue| ==> run[i].queue[k] == |run[i].done| + k
  {
    var s := run[i];
    ScheduleInv(run, actions, i);
    assert s.done == (s.done + s.queue)[..|s.done|];
    assert forall k :: 0 <= k < |s.queue| ==> s.queue[k] == (s.done + s.queue)[|s.done| + k];
  }

  /** When no group is being written, log and memtable hold exactly the batches of the completed writers, in order, with
      consecutive sequence numbers from 1; the last is the published one. */
  lemma CommittedHistory(run: seq<State>, actions: seq<Action>, i: nat)
    requires Schedule(run, actions) && i < |run| && !run[i].leader.Writing?
    ensures
      var s := run[i];
      && InRange(s)
      && FlatLog(s.log) == Batches(s.writes, s.done)
      && s.memtable == Numbered(1, Batches(s.writes, s.done))
      && s.lastSequence == |s.memtable|
      && Consecutive(s.log)
  {
    var s := run[i];
    ScheduleInv(run, actions, i);
    assert Batches(s.writes, s.done) + [] == Batches(s.writes, s.done);
  }

  /** A snapshot sees all of a group or nothing of it, then and ever after. */
  lemma SnapshotsSeeWholeGroups(run: seq<State>, actions: seq<Action>, i: nat, snapshot: nat, g: nat)
    requires Schedule(run, actions) && i < |run| && snapshot in run[i].snapshots && g < |run[i].log|
    ensures Whole(snapshot, run[i].log[g])
  {
    ScheduleInv(run, actions, i);
  }

  /** Once a sync write is acknowledged, it and everything before it is in the part of the log that is on disk. */
  lemma SyncWritesAreDurable(run: seq<State>, actions: seq<Action>, i: nat, k: nat)
    requires Schedule(run, actions) && i < |run| && k < |run[i].done|
    requires run[i].done[k] < |run[i].writes| && SyncWrite(run[i].writes[run[i].done[k]])
    ensures
      var s := run[i];
      && InRange(s) && s.synced <= |s.log|
      && Batches(s.writes, s.done[..k + 1]) <= FlatLog(s.log[..s.synced])
  {
    hide Batches, FlatLog, Inv;
    var s := run[i];
    ScheduleInv(run, actions, i);
    DurableAt(s, k);
    ShorterPrefix(Batches(s.writes, s.done[..k + 1]), FlatLog(s.log[..s.synced]), FlatLog(s.log));
  }

  /** The batches up to a completed sync write and the synced part both begin the log, and the synced part is no
      shorter. */
  lemma DurableAt(s: State, k: nat)
    requires Inv(s) && k < |s.done| && s.done[k] < |s.writes| && SyncWrite(s.writes[s.done[k]])
    ensures InRange(s) && s.synced <= |s.log|
    ensures Batches(s.writes, s.done[..k + 1]) <= FlatLog(s.log) && FlatLog(s.log[..s.synced]) <= FlatLog(s.log)
    ensures |Batches(s.writes, s.done[..k + 1])| <= |FlatLog(s.log[..s.synced])|
  {
    hide Batches, FlatLog, Readers, LeaderOk, NoBatchNoRecords;
    BatchesConcat(s.writes, s.done[..k + 1], s.done[k + 1..]);
    assert s.done == s.done[..k + 1] + s.done[k + 1..];
    FlatLogConcat(s.log, s.synced);
  }

  lemma ShorterPrefix<T>(a: seq<T>, b: seq<T>, c: seq<T>)
    requires a <= c && b <= c && |a| <= |b|
    ensures a <= b
  {
    assert a == c[..|a|] && b == c[..|b|];
  }

  lemma {:induction false} FlatLogConcat(log: seq<Logged>, n: nat)
    requires n <= |log|
    ensures FlatLog(log[..n]) <= FlatLog(log)
    decreases |log|
  {
    if n == |log| {
      assert log[..n] == log;
    } else {
      FlatLogConcat(log[..|log| - 1], n);
      assert log[..|log| - 1][..n] == log[..n];
    }
  }
}
