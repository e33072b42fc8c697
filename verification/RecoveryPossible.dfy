/** Recovery never gets stuck: whatever a crash left behind, the database can be opened again. */
module RecoveryPossible {
  import opened DbFormat
  import opened Version
  import opened Storage
  import opened Builder
  import opened Database
  import opened DatabaseInvariant
  import opened Recovery

  /** The place of an entry in a memtable. */
  function InsertEntry(es: seq<Entry>, e: Entry): (r: seq<Entry>)
    requires Sorted(es) && forall x :: x in es ==> x.key.sn != e.key.sn
    ensures Sorted(r) && forall x :: x in r <==> x in es || x == e
  {
    if es == [] then [e]
    else if Less(e.key, es[0].key) then [e] + es
    else
      var rest := InsertEntry(es[1..], e);
      assert forall x :: x in es <==> x == es[0] || x in es[1..];
      assert forall x :: x in rest ==> Less(es[0].key, x.key);
      [es[0]] + rest
  }

  function MemTableOf(log: seq<Entry>): (r: seq<Entry>)
    requires forall i, j :: 0 <= i < j < |log| ==> log[i].key.sn != log[j].key.sn
    ensures Sorted(r) && SameEntries(r, log)
  {
    if log == [] then []
    else
      var front := log[..|log| - 1];
      assert forall x :: x in log <==> x in front || x == log[|log| - 1];
      InsertEntry(MemTableOf(front), log[|log| - 1])
  }

  lemma TableOf(tail: seq<Entry>, number: nat) returns (f: File)
    requires tail != [] && forall i, j :: 0 <= i < j < |tail| ==> tail[i].key.sn != tail[j].key.sn
    requires forall e :: e in tail ==> e.key.sn <= MAX_SEQUENCE
    ensures FileOk(f) && f.number == number && SameEntries(f.entries, tail)
  {
    var es := MemTableOf(tail);
    assert tail[0] in es;
    f := File(number, 0, es[0].key, es[|es| - 1].key, es);
  }

  lemma TablesOf(tail: seq<Entry>, first: nat) returns (cuts: seq<nat>, tables: seq<File>)
    requires forall i, j :: 0 <= i < j < |tail| ==> tail[i].key.sn != tail[j].key.sn
    requires forall e :: e in tail ==> e.key.sn <= MAX_SEQUENCE
    ensures RecoveredTables(tail, cuts, tables, first)
    ensures forall i :: 0 <= i < |tables| ==> tables[i].number == first
  {
    if tail == [] {
      cuts, tables := [0], [];
    } else {
      var f := TableOf(tail, first);
      cuts, tables := [0, |tail|], [f];
      assert tail[0..|tail|] == tail;
    }
  }

  /** In every state in which the database is closed, some opening succeeds. */
  lemma ReopenPossible(s: State, d: Durable) returns (a: Action)
    requires s.mode == Closed(d) && Inv(s)
    ensures a.Reopen? && Enabled(s, a)
  {
    hide Stores, Built, RecoveredTables, Applied, TablesHold;
    var tail := s.hist[d.point..];
    var cuts, tables := TablesOf(tail, d.meta.next + 1);
    var newLog := Later(d.bound, d.meta.next + 2);
    ReloadHolds(d.levels, s.disk.tables);
    TailUpTo(s.disk.logs, d.meta.log, d.bound, newLog);
    FreshLater(d.levels, d.meta.next, d.meta.next + 1);
    var after := RecoverStores(d.levels, s.hist, d.point, |s.hist|, cuts, tables, d.meta.next + 1, newLog + 1);
    a := Reopen(d.levels, cuts, tables, newLog, newLog + 1, after);
    assert ReopenFrom(s.disk, s.disk.manifests[s.disk.current], d.meta, a);
  }
}
