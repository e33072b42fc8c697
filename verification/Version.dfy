/** Versions: table files arranged in levels, and the search through them
    (db/version_set.cc, lines 88-157 and 326-421). */
module Version {
  import opened DbFormat

  const NUM_LEVELS := 7

  /** A table file: its number and metadata as the manifest records them, and what the table holds. */
  datatype File = File(number: nat, size: nat, smallest: InternalKey, largest: InternalKey,
                       entries: seq<Entry>)

  type Levels = seq<seq<File>>

  predicate FileOk(f: File) {
    && f.entries != []
    && Sorted(f.entries)
    && f.smallest == f.entries[0].key
    && f.largest == f.entries[|f.entries| - 1].key
    && (forall e :: e in f.entries ==> e.key.sn <= MAX_SEQUENCE)
  }

  /** Every entry of `f` about a user key is newer than every entry of `g` about it. */
  ghost predicate Newer(f: File, g: File) {
    forall a, b :: a in f.entries && b in g.entries && a.key.user == b.key.user ==> a.key.sn > b.key.sn
  }

  predicate UserOverlap(f: File, g: File) {
    f.smallest.user <= g.largest.user && g.smallest.user <= f.largest.user
  }

  /** The user key lies in the range of `f`. */
  predicate Spans(f: File, user: UserKey) {
    f.smallest.user <= user <= f.largest.user
  }

  /** Files ascend and are disjoint in internal key order. */
  predicate Disjoint(files: seq<File>) {
    forall i, j :: 0 <= i < j < |files| ==> Less(files[i].largest, files[j].smallest)
  }

  /** Directory order of every level: by smallest key, ties by file number. */
  predicate FileLess(f: File, g: File) {
    Less(f.smallest, g.smallest) || (f.smallest == g.smallest && f.number < g.number)
  }

  predicate BySmallest(files: seq<File>) {
    forall i, j :: 0 <= i < j < |files| ==> FileLess(files[i], files[j])
  }

  ghost predicate FilesOk(levels: Levels) {
    forall l, f :: 0 <= l < |levels| && f in levels[l] ==> FileOk(f)
  }

  ghost predicate DirectoryOrder(levels: Levels) {
    forall l :: 0 <= l < |levels| ==> BySmallest(levels[l])
  }

  /** No two table files share a number. */
  ghost predicate DistinctNumbers(levels: Levels) {
    forall l, m, f, g :: 0 <= l < |levels| && 0 <= m < |levels| && f in levels[l] && g in levels[m] ==>
      f.number != g.number || (l == m && f == g)
  }

  ghost predicate DeeperDisjoint(levels: Levels) {
    forall l :: 1 <= l < |levels| ==> Disjoint(levels[l])
  }

  ghost predicate Level0ByAge(files: seq<File>) {
    forall f, g :: f in files && g in files && f.number > g.number ==> Newer(f, g)
  }

  ghost predicate ShallowIsNewer(levels: Levels) {
    forall l, m, f, g :: 0 <= l < m < |levels| && f in levels[l] && g in levels[m] ==> Newer(f, g)
  }

  /** What the engine relies on to stop at the first level that answers. */
  ghost predicate Ordered(levels: Levels) {
    && |levels| == NUM_LEVELS
    && FilesOk(levels)
    && DirectoryOrder(levels)
    && DistinctNumbers(levels)
    && DeeperDisjoint(levels)
    && Level0ByAge(levels[0])
    && ShallowIsNewer(levels)
  }

  /** The file-set part of a version edit: numbers deleted from a level, files added to a level. */
  datatype FileEdit = FileEdit(deleted: set<(nat, nat)>, added: seq<(nat, File)>)

  /** `after` is the version that the edit makes out of `before` (module `Builder` computes it). */
  ghost predicate Applied(before: Levels, e: FileEdit, after: Levels) {
    && |before| == |after| == NUM_LEVELS
    && forall l :: 0 <= l < NUM_LEVELS ==>
         && BySmallest(after[l])
         && forall f :: f in after[l] <==> (f in before[l] && (l, f.number) !in e.deleted) || (l, f) in e.added
  }

  ghost predicate Has(levels: Levels, e: Entry) {
    exists l, f :: 0 <= l < |levels| && f in levels[l] && e in f.entries
  }

  // ---------- one table ----------

  /** Index of the first entry at or after `k`: what `InternalGet` positions on (module `Table`). */
  function FirstAtOrAfter(es: seq<Entry>, k: InternalKey): (i: nat)
    ensures i <= |es|
    ensures forall j :: 0 <= j < i ==> Less(es[j].key, k)
    ensures i < |es| ==> !Less(es[i].key, k)
  {
    if es == [] || !Less(es[0].key, k) then 0 else 1 + FirstAtOrAfter(es[1..], k)
  }

  /** A seek followed by the user key test of `SaveValue` and of `MemTable::Get`. */
  function SeekEntry(es: seq<Entry>, k: InternalKey): Option<Entry> {
    var i := FirstAtOrAfter(es, k);
    if i < |es| && es[i].key.user == k.user then Some(es[i]) else None
  }

  function TableGet(f: File, k: InternalKey): Option<Entry> {
    SeekEntry(f.entries, k)
  }

  /** `r` is the newest entry of the version visible to a reader of `user` at `s`, if there is one. */
  ghost predicate Finds(levels: Levels, user: UserKey, s: nat, r: Option<Entry>) {
    match r
    case None => forall e :: Has(levels, e) ==> !Matches(e, user, s)
    case Some(e) => Has(levels, e) && Matches(e, user, s) &&
                    forall d :: Has(levels, d) && Matches(d, user, s) ==> d.key.sn <= e.key.sn
  }

  /** In sorted entries a seek finds the newest visible entry of the key. */
  lemma SeekFinds(es: seq<Entry>, user: UserKey, s: nat)
    requires Sorted(es)
    ensures var r := SeekEntry(es, LookupKey(user, s));
      && (r.Some? ==> r.value in es && Matches(r.value, user, s))
      && forall e :: e in es && Matches(e, user, s) ==> r.Some? && e.key.sn <= r.value.key.sn
  {
    var i := FirstAtOrAfter(es, LookupKey(user, s));
    forall e | e in es && Matches(e, user, s)
      ensures i < |es| && es[i].key.user == user && e.key.sn <= es[i].key.sn
    {
      var j :| 0 <= j < |es| && es[j] == e;
    }
  }

  /** A table lookup returns the newest visible entry of the table. */
  lemma TableGetFinds(f: File, user: UserKey, s: nat)
    requires FileOk(f)
    ensures var r := TableGet(f, LookupKey(user, s));
      && (r.Some? ==> r.value in f.entries && Matches(r.value, user, s))
      && forall e :: e in f.entries && Matches(e, user, s) ==> r.Some? && e.key.sn <= r.value.key.sn
  {
    SeekFinds(f.entries, user, s);
  }

  lemma WithinRange(f: File, e: Entry)
    requires FileOk(f) && e in f.entries
    ensures !Less(e.key, f.smallest) && !Less(f.largest, e.key)
    ensures Spans(f, e.key.user)
  {
    var j :| 0 <= j < |f.entries| && f.entries[j] == e;
  }

  lemma RangeAscends(f: File)
    requires FileOk(f)
    ensures !Less(f.largest, f.smallest)
  {
  }

  // ---------- one level ----------

  /** Binary search for the first file whose largest key is at or after `key`. */
  method FindFile(files: seq<File>, key: InternalKey) returns (right: nat)
    requires Disjoint(files) && forall f :: f in files ==> FileOk(f)
    ensures right <= |files|
    ensures forall i :: 0 <= i < right ==> Less(files[i].largest, key)
    ensures forall i :: right <= i < |files| ==> !Less(files[i].largest, key)
  {
    var left := 0;
    right := |files|;
    while left < right
      invariant left <= right <= |files|
      invariant forall i :: 0 <= i < left ==> Less(files[i].largest, key)
      invariant forall i :: right <= i < |files| ==> !Less(files[i].largest, key)
    {
      var mid := (left + right) / 2;
      var f := files[mid];
      assert FileOk(f);
      if Less(f.largest, key) {
        LargestAscends(files, mid);
        left := mid + 1;
      } else {
        LargestAscends(files, mid);
        right := mid;
      }
    }
  }

  lemma LargestAscends(files: seq<File>, mid: int)
    requires Disjoint(files) && (forall f :: f in files ==> FileOk(f)) && 0 <= mid < |files|
    ensures forall i :: 0 <= i < mid ==> Less(files[i].largest, files[mid].largest)
    ensures forall i :: mid < i < |files| ==> Less(files[mid].largest, files[i].largest)
  {
    forall i | 0 <= i < |files| ensures !Less(files[i].largest, files[i].smallest) {
      RangeAscends(files[i]);
    }
  }

  predicate FirstHit(cand: seq<File>, i: int, k: InternalKey) {
    && 0 <= i < |cand|
    && TableGet(cand[i], k).Some?
    && forall j :: 0 <= j < i ==> TableGet(cand[j], k).None?
  }

  /** No visible entry of these files is newer than `sn`. */
  ghost predicate NoneNewer(files: seq<File>, user: UserKey, s: nat, sn: int) {
    forall g, b :: g in files && b in g.entries && Matches(b, user, s) ==> b.key.sn <= sn
  }

  /** Searching `cand` in turn answers for the whole level: the first hit is the newest visible entry. */
  ghost predicate SearchOrder(files: seq<File>, cand: seq<File>, user: UserKey, s: nat) {
    var k := LookupKey(user, s);
    && (forall f :: f in cand ==> f in files)
    && ((forall i :: 0 <= i < |cand| ==> TableGet(cand[i], k).None?) ==> NoneNewer(files, user, s, -1))
    && (forall i :: FirstHit(cand, i, k) ==> NoneNewer(files, user, s, TableGet(cand[i], k).value.key.sn))
  }

  predicate NewestFirst(files: seq<File>) {
    forall i, j :: 0 <= i < j < |files| ==> files[i].number > files[j].number
  }

  function InsertByNumber(files: seq<File>, f: File): (r: seq<File>)
    requires NewestFirst(files) && forall g :: g in files ==> g.number != f.number
    ensures NewestFirst(r) && forall g :: g in r <==> g in files || g == f
  {
    if files == [] then [f]
    else if f.number > files[0].number then [f] + files
    else
      var rest := InsertByNumber(files[1..], f);
      assert forall g :: g in files <==> g == files[0] || g in files[1..];
      assert forall g :: g in rest ==> g.number < files[0].number;
      [files[0]] + rest
  }

  /** `std::sort` by decreasing file number. */
  function SortNewestFirst(files: seq<File>): (r: seq<File>)
    requires forall i, j :: 0 <= i < j < |files| ==> files[i].number != files[j].number
    ensures NewestFirst(r) && forall g :: g in r <==> g in files
  {
    if files == [] then []
    else
      var rest := SortNewestFirst(files[1..]);
      assert forall g :: g in files <==> g == files[0] || g in files[1..];
      InsertByNumber(rest, files[0])
  }

  lemma Level0Order(files: seq<File>, cand: seq<File>, user: UserKey, s: nat)
    requires forall f :: f in files ==> FileOk(f)
    requires Level0ByAge(files)
    requires NewestFirst(cand) && forall f :: f in cand <==> f in files && Spans(f, user)
    ensures SearchOrder(files, cand, user, s)
  {
    hide FileOk, TableGet, Matches, Newer, Spans;
    var k := LookupKey(user, s);
    forall g, b | g in files && b in g.entries && Matches(b, user, s)
      ensures Spans(g, user) && TableGet(g, k).Some? && b.key.sn <= TableGet(g, k).value.key.sn
    {
      SpannedHit(g, user, s, b);
    }
    forall i, g, b | FirstHit(cand, i, k) && g in files && b in g.entries && Matches(b, user, s)
      ensures b.key.sn <= TableGet(cand[i], k).value.key.sn
    {
      assert cand[i] in cand && g in cand;
      var j :| 0 <= j < |cand| && cand[j] == g;
      if i < j {
        NewerHit(cand[i], g, user, s, b);
      }
    }
  }

  lemma SpannedHit(g: File, user: UserKey, s: nat, b: Entry)
    requires FileOk(g) && b in g.entries && Matches(b, user, s)
    ensures var r := TableGet(g, LookupKey(user, s));
      Spans(g, user) && r.Some? && b.key.sn <= r.value.key.sn
  {
    WithinRange(g, b);
    TableGetFinds(g, user, s);
  }

  lemma NewerHit(f: File, g: File, user: UserKey, s: nat, b: Entry)
    requires FileOk(f) && Newer(f, g) && TableGet(f, LookupKey(user, s)).Some?
    requires b in g.entries && Matches(b, user, s)
    ensures b.key.sn <= TableGet(f, LookupKey(user, s)).value.key.sn
  {
    TableGetFinds(f, user, s);
  }

  lemma DeeperLevelOrder(files: seq<File>, index: nat, cand: seq<File>, user: UserKey, s: nat)
    requires Disjoint(files) && forall f :: f in files ==> FileOk(f)
    requires index <= |files|
    requires forall i :: 0 <= i < index ==> Less(files[i].largest, LookupKey(user, s))
    requires forall i :: index <= i < |files| ==> !Less(files[i].largest, LookupKey(user, s))
    requires cand == if index < |files| && user >= files[index].smallest.user then [files[index]] else []
    ensures SearchOrder(files, cand, user, s)
  {
    var k := LookupKey(user, s);
    forall g, b | g in files && b in g.entries && Matches(b, user, s)
      ensures |cand| == 1 && TableGet(cand[0], k).Some? && b.key.sn <= TableGet(cand[0], k).value.key.sn
    {
      var j :| 0 <= j < |files| && files[j] == g;
      WithinRange(g, b);
      assert j >= index;
      var f := files[index];
      RangeAscends(f);
      TableGetFinds(f, user, s);
      if index < j {
        assert Less(f.largest, g.smallest);
        assert Matches(f.entries[|f.entries| - 1], user, s);
      }
    }
  }

  /** The level-0 files whose range spans the key, newest first. */
  method Level0Candidates(files: seq<File>, user: UserKey) returns (r: seq<File>)
    requires BySmallest(files) && Level0ByAge(files) && forall f :: f in files ==> FileOk(f)
    requires forall f, g :: f in files && g in files ==> f.number != g.number || f == g
    ensures NewestFirst(r) && forall f :: f in r <==> f in files && Spans(f, user)
    ensures forall s :: SearchOrder(files, r, user, s)
  {
    var tmp: seq<File> := [];
    for i := 0 to |files|
      invariant forall f :: f in tmp <==> f in files[..i] && Spans(f, user)
      invariant forall a, b :: 0 <= a < b < |tmp| ==> tmp[a].number != tmp[b].number
    {
      var f := files[i];
      assert files[..i + 1] == files[..i] + [f];
      if user >= f.smallest.user && user <= f.largest.user {
        forall a | 0 <= a < |tmp| ensures tmp[a].number != f.number {
          assert tmp[a] in files[..i];
          var j :| 0 <= j < i && files[j] == tmp[a];
          assert FileLess(files[j], files[i]);
        }
        tmp := tmp + [f];
      }
    }
    assert files[..|files|] == files;
    r := SortNewestFirst(tmp);
    forall s ensures SearchOrder(files, r, user, s) {
      Level0Order(files, r, user, s);
    }
  }

  // ---------- the whole version ----------

  /** `Version::Get`: level by level, stopping at the first table that has an entry for the key. */
  method Get(levels: Levels, user: UserKey, s: nat) returns (r: Option<Entry>)
    requires Ordered(levels)
    ensures Finds(levels, user, s, r)
  {
    hide FileOk, BySmallest, Disjoint, Newer, TableGet, Matches, SearchOrder, ShallowIsNewer, FirstHit;
    var lookup := LookupKey(user, s);
    for level := 0 to NUM_LEVELS
      invariant forall l, f, e :: 0 <= l < level && f in levels[l] && e in f.entries ==> !Matches(e, user, s)
    {
      var files: seq<File> := [];
      if level == 0 {
        files := Level0Candidates(levels[0], user);
      } else {
        var index := FindFile(levels[level], lookup);
        if index < |levels[level]| {
          if user >= levels[level][index].smallest.user {
            files := [levels[level][index]];
          }
        }
        DeeperLevelOrder(levels[level], index, files, user, s);
      }
      for i := 0 to |files|
        invariant forall j :: 0 <= j < i ==> TableGet(files[j], lookup).None?
      {
        r := TableGet(files[i], lookup);
        if r.Some? {
          FirstHitIsNewest(levels, level, files, i, user, s);
          return;
        }
      }
      LevelMissed(levels[level], files, user, s);
    }
    r := None;
  }

  lemma LevelMissed(files: seq<File>, cand: seq<File>, user: UserKey, s: nat)
    requires SearchOrder(files, cand, user, s)
    requires forall j :: 0 <= j < |cand| ==> TableGet(cand[j], LookupKey(user, s)).None?
    ensures forall f, e :: f in files && e in f.entries ==> !Matches(e, user, s)
  {
  }

  lemma FirstHitIsNewest(levels: Levels, level: nat, files: seq<File>, i: nat, user: UserKey, s: nat)
    requires Ordered(levels) && level < NUM_LEVELS
    requires forall l, f, e :: 0 <= l < level && f in levels[l] && e in f.entries ==> !Matches(e, user, s)
    requires SearchOrder(levels[level], files, user, s)
    requires i < |files| && TableGet(files[i], LookupKey(user, s)).Some?
    requires forall j :: 0 <= j < i ==> TableGet(files[j], LookupKey(user, s)).None?
    ensures Finds(levels, user, s, TableGet(files[i], LookupKey(user, s)))
  {
    var f := files[i];
    assert FirstHit(files, i, LookupKey(user, s));
    TableGetFinds(f, user, s);
    var r := TableGet(f, LookupKey(user, s)).value;
    forall e | Has(levels, e) && Matches(e, user, s)
      ensures e.key.sn <= r.key.sn
    {
      var l, g :| 0 <= l < |levels| && g in levels[l] && e in g.entries;
      if level < l {
        assert Newer(f, g);
      }
    }
  }
}
