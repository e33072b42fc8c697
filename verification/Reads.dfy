/** `DBImpl::Get`: memtable, then immutable memtable, then the version (db/db_impl.cc, lines 1100-1145;
    db/memtable.cc, lines 100-134). */
module Reads {
  import opened DbFormat
  import opened Version
  import opened Storage

  /** A memtable, in the order of its skip list, with the history entries numbered `from + 1` to `to`. */
  ghost predicate MemTable(mem: seq<Entry>, h: seq<Entry>, from: nat, to: nat) {
    Sorted(mem) && forall e :: e in mem <==> Recorded(h, e) && from < e.key.sn <= to
  }

  method Get(mem: seq<Entry>, imm: Option<seq<Entry>>, levels: Levels, user: UserKey, s: nat,
             ghost h: seq<Entry>, ghost p: nat, ghost q: nat)
    returns (r: Option<Val>)
    requires History(h) && p <= q <= |h|
    requires MemTable(mem, h, q, |h|)
    requires if imm.Some? then MemTable(imm.value, h, p, q) else p == q
    requires Stores(levels, h[..p], s)
    ensures r == Lookup(h, user, s)
  {
    var lookup := LookupKey(user, s);
    var e := SeekEntry(mem, lookup);
    SeekFinds(mem, user, s);
    if e.Some? {
      HitIsNewest(h, user, s, q, e.value);
      return Shown(e.value);
    }
    MissEverything(h, user, s, q, |h|);
    if imm.Some? {
      e := SeekEntry(imm.value, lookup);
      SeekFinds(imm.value, user, s);
      if e.Some? {
        HitIsNewest(h, user, s, p, e.value);
        return Shown(e.value);
      }
      MissEverything(h, user, s, p, q);
    }
    e := Version.Get(levels, user, s);
    FindsIsLookup(levels, h[..p], user, s, e);
    LookupSkips(h, p, user, s);
    r := if e.Some? then Shown(e.value) else None;
  }

  /** The newest entry of the part of the history after `from` is the newest of all. */
  lemma HitIsNewest(h: seq<Entry>, user: UserKey, s: nat, from: nat, e: Entry)
    requires History(h) && Recorded(h, e) && e.key.sn > from && Matches(e, user, s)
    requires forall d :: Recorded(h, d) && d.key.sn > from && Matches(d, user, s) ==> d.key.sn <= e.key.sn
    ensures Lookup(h, user, s) == Shown(e)
  {
    forall m | e.key.sn - 1 < m < |h| ensures !Matches(h[m], user, s) {
      assert Recorded(h, h[m]);
    }
    LookupIsNewest(h, user, s, e.key.sn - 1);
  }

  lemma MissEverything(h: seq<Entry>, user: UserKey, s: nat, from: nat, to: nat)
    requires History(h) && to <= |h|
    requires forall d :: Recorded(h, d) && from < d.key.sn <= to ==> !Matches(d, user, s)
    ensures forall m :: from <= m < to ==> !Matches(h[m], user, s)
  {
    forall m | from <= m < to ensures !Matches(h[m], user, s) {
      assert Recorded(h, h[m]);
    }
  }

  lemma {:induction false} LookupSkips(h: seq<Entry>, p: nat, user: UserKey, s: nat)
    requires p <= |h| && forall m :: p <= m < |h| ==> !Matches(h[m], user, s)
    ensures Lookup(h, user, s) == Lookup(h[..p], user, s)
  {
    if p < |h| {
      LookupSkips(h[..|h| - 1], p, user, s);
      assert h[..|h| - 1][..p] == h[..p];
    } else {
      assert h[..p] == h;
    }
  }
}
