/** Compactions: merging files of one level with files of the next, dropping what no reader needs
    (db/db_impl.cc, lines 878-999; db/version_set.cc, lines 1515-1552). */
module Compaction {
  import opened DbFormat
  import opened Version
  import opened Storage

  /** The input files: `in0` from `level`, `in1` from `level + 1`. */
  datatype Inputs = Inputs(level: nat, in0: seq<File>, in1: seq<File>)

  function All(c: Inputs): seq<File> {
    c.in0 + c.in1
  }

  ghost predicate InInputs(c: Inputs, e: Entry) {
    exists x :: x in All(c) && e in x.entries
  }

  ghost predicate InHull(files: seq<File>, k: UserKey) {
    exists x, y :: x in files && y in files && x.smallest.user <= k && k <= y.largest.user
  }

  ghost predicate Covered(files: seq<File>, k: UserKey) {
    exists z :: z in files && Spans(z, k)
  }

  /** Every user key in the hull of the inputs lies in the range of some input. */
  ghost predicate GapFree(files: seq<File>) {
    forall k :: InHull(files, k) ==> Covered(files, k)
  }

  /** The inputs are files of the version. */
  predicate InPlace(levels: Levels, c: Inputs) {
    && |levels| == NUM_LEVELS
    && c.level + 1 < NUM_LEVELS
    && (forall f :: f in c.in0 ==> f in levels[c.level])
    && (forall f :: f in c.in1 ==> f in levels[c.level + 1])
  }

  /** What makes it safe to replace the inputs, however many flushes have happened since the compaction
      was set up from version `base`. */
  ghost predicate Ready(levels: Levels, base: Levels, c: Inputs) {
    && |levels| == |base| == NUM_LEVELS
    && c.level + 1 < NUM_LEVELS
    && c.in0 != []
    && (forall f :: f in c.in0 ==> f in levels[c.level])
    && (forall f :: f in c.in1 ==> f in levels[c.level + 1])
    && (forall h, f :: h in levels[c.level] && h !in c.in0 && f in c.in0 ==> Newer(h, f))
    && (forall g, x :: g in levels[c.level + 1] && g !in c.in1 && x in All(c) ==> !UserOverlap(g, x))
    && (forall l, g, x :: c.level + 2 <= l < NUM_LEVELS && g in levels[l] && g !in base[l] && x in All(c) ==>
          !UserOverlap(g, x))
    && GapFree(All(c))
  }

  /** `AddInputDeletions` and the list of outputs. */
  function CompactionEdit(c: Inputs, outs: seq<File>): FileEdit {
    FileEdit((set f | f in c.in0 :: (c.level, f.number)) + (set f | f in c.in1 :: (c.level + 1, f.number)),
             seq(|outs|, i requires 0 <= i < |outs| => (c.level + 1, outs[i])))
  }

  ghost predicate Remains(levels: Levels, c: Inputs, l: nat, f: File) {
    && l < |levels|
    && f in levels[l]
    && !(l == c.level && f in c.in0)
    && !(l == c.level + 1 && f in c.in1)
  }

  /** The outputs are made of input entries, in order, under numbers of their own. */
  ghost predicate Outputs(levels: Levels, c: Inputs, outs: seq<File>) {
    && Disjoint(outs)
    && (forall o :: o in outs ==> FileOk(o))
    && (forall o, e :: o in outs && e in o.entries ==> InInputs(c, e))
    && (forall i, j :: 0 <= i < j < |outs| ==> outs[i].number != outs[j].number)
    && (forall o, l, g :: o in outs && Remains(levels, c, l, g) ==> o.number != g.number)
  }

  /** The files of the new version: those that remain, and the outputs one level down. */
  ghost predicate Swapped(before: Levels, c: Inputs, outs: seq<File>, after: Levels) {
    && |after| == NUM_LEVELS
    && DirectoryOrder(after)
    && forall l, f :: 0 <= l < NUM_LEVELS ==>
         (f in after[l] <==> Remains(before, c, l, f) || (l == c.level + 1 && f in outs))
  }

  // ---------- the new version is ordered ----------

  lemma CompactionEditFiles(c: Inputs, outs: seq<File>)
    ensures forall l, f :: (l, f) in CompactionEdit(c, outs).added <==> l == c.level + 1 && f in outs
  {
    var e := CompactionEdit(c, outs);
    forall l, f ensures (l, f) in e.added <==> l == c.level + 1 && f in outs {
      if l == c.level + 1 && f in outs {
        var i :| 0 <= i < |outs| && outs[i] == f;
        assert e.added[i] == (l, f);
      }
    }
  }

  lemma FilesAfter(before: Levels, c: Inputs, outs: seq<File>, after: Levels)
    requires DistinctNumbers(before) && InPlace(before, c)
    requires Applied(before, CompactionEdit(c, outs), after)
    ensures Swapped(before, c, outs, after)
  {
    CompactionEditFiles(c, outs);
    var e := CompactionEdit(c, outs);
    forall l, f | 0 <= l < NUM_LEVELS && f in before[l]
      ensures (l, f.number) in e.deleted <==> (l == c.level && f in c.in0) || (l == c.level + 1 && f in c.in1)
    {
    }
  }

  lemma OverlapsCovered(files: seq<File>, o: File, g: File, first: File, last: File)
    requires GapFree(files) && UserOverlap(g, o) && first in files && last in files
    requires first.smallest.user <= o.smallest.user && o.largest.user <= last.largest.user
    requires o.smallest.user <= o.largest.user && g.smallest.user <= g.largest.user
    ensures exists z :: z in files && UserOverlap(g, z)
  {
    var k := if g.smallest.user <= o.smallest.user then o.smallest.user else g.smallest.user;
    assert InHull(files, k);
    var z :| z in files && Spans(z, k);
    assert UserOverlap(g, z);
  }

  /** Nothing that stays in the output level comes between the outputs. */
  lemma OutputApart(c: Inputs, o: File, g: File)
    requires GapFree(All(c)) && FileOk(o) && FileOk(g) && forall x :: x in All(c) ==> FileOk(x)
    requires forall e :: e in o.entries ==> InInputs(c, e)
    requires forall x :: x in All(c) ==> !UserOverlap(g, x)
    ensures !UserOverlap(g, o)
  {
    if UserOverlap(g, o) {
      var first, last := o.entries[0], o.entries[|o.entries| - 1];
      assert InInputs(c, first) && InInputs(c, last);
      var x :| x in All(c) && first in x.entries;
      var y :| y in All(c) && last in y.entries;
      WithinRange(x, first);
      WithinRange(y, last);
      RangeAscends(o);
      RangeAscends(g);
      OverlapsCovered(All(c), o, g, x, y);
    }
  }

  lemma InputsOk(before: Levels, c: Inputs)
    requires FilesOk(before) && InPlace(before, c)
    ensures forall x :: x in All(c) ==> FileOk(x)
  {
    forall x | x in All(c) ensures FileOk(x) {
      assert x in before[c.level] || x in before[c.level + 1];
    }
  }

  lemma OutputLevelDisjoint(before: Levels, base: Levels, c: Inputs, outs: seq<File>, files: seq<File>)
    requires Ordered(before) && Ready(before, base, c) && Outputs(before, c, outs) && BySmallest(files)
    requires forall f :: f in files <==> Remains(before, c, c.level + 1, f) || f in outs
    ensures Disjoint(files)
  {
    InputsOk(before, c);
    forall a, b | a in files && b in files && a != b
      ensures Apart(a, b)
    {
      if a in outs && b in outs {
        DisjointIsApart(outs, a, b);
      } else if b in outs {
        OutputApart(c, b, a);
        NoOverlap(a, b);
      } else if a in outs {
        OutputApart(c, a, b);
        NoOverlap(b, a);
      } else {
        DisjointIsApart(before[c.level + 1], a, b);
      }
    }
    ApartIsDisjoint(files);
  }

  /** What holds of every input holds of an output. */
  lemma OutputNewer(c: Inputs, o: File, g: File)
    requires forall e :: e in o.entries ==> InInputs(c, e)
    ensures (forall x :: x in All(c) ==> Newer(g, x)) ==> Newer(g, o)
    ensures (forall x :: x in All(c) ==> Newer(x, g)) ==> Newer(o, g)
  {
    forall a, b | a in g.entries && b in o.entries && a.key.user == b.key.user
      ensures (forall x :: x in All(c) ==> Newer(g, x)) ==> a.key.sn > b.key.sn
      ensures (forall x :: x in All(c) ==> Newer(x, g)) ==> b.key.sn > a.key.sn
    {
      assert InInputs(c, b);
      var x :| x in All(c) && b in x.entries;
    }
  }

  lemma OutputAge(before: Levels, base: Levels, c: Inputs, o: File, l: nat, g: File)
    requires ShallowIsNewer(before) && Ready(before, base, c)
    requires forall e :: e in o.entries ==> InInputs(c, e)
    requires Remains(before, c, l, g)
    ensures l < c.level + 1 ==> Newer(g, o)
    ensures l > c.level + 1 ==> Newer(o, g)
  {
    forall x | x in All(c)
      ensures l < c.level + 1 ==> Newer(g, x)
      ensures l > c.level + 1 ==> Newer(x, g)
    {
      assert x in c.in0 || x in c.in1;
    }
    OutputNewer(c, o, g);
  }

  lemma CompactionNumbers(before: Levels, c: Inputs, outs: seq<File>, after: Levels)
    requires |before| == NUM_LEVELS && DistinctNumbers(before) && Outputs(before, c, outs)
    requires Swapped(before, c, outs, after)
    ensures DistinctNumbers(after)
  {
    forall l, m, f, g | 0 <= l < NUM_LEVELS && 0 <= m < NUM_LEVELS && f in after[l] && g in after[m]
      ensures f.number != g.number || (l == m && f == g)
    {
      if Remains(before, c, l, f) && Remains(before, c, m, g) {
        assert f in before[l] && g in before[m];
      } else if !Remains(before, c, l, f) && !Remains(before, c, m, g) {
        var i :| 0 <= i < |outs| && outs[i] == f;
        var j :| 0 <= j < |outs| && outs[j] == g;
      }
    }
  }

  lemma CompactionAge(before: Levels, base: Levels, c: Inputs, outs: seq<File>, after: Levels)
    requires ShallowIsNewer(before) && Ready(before, base, c) && Outputs(before, c, outs)
    requires Swapped(before, c, outs, after)
    ensures ShallowIsNewer(after)
  {
    forall l, m, a, b | 0 <= l < m < NUM_LEVELS && a in after[l] && b in after[m] ensures Newer(a, b) {
      if !Remains(before, c, m, b) {
        OutputAge(before, base, c, b, l, a);
      } else if !Remains(before, c, l, a) {
        OutputAge(before, base, c, a, m, b);
      }
    }
  }

  lemma CompactionOrder(before: Levels, base: Levels, c: Inputs, outs: seq<File>, after: Levels)
    requires Ordered(before) && Ready(before, base, c) && Outputs(before, c, outs)
    requires Swapped(before, c, outs, after)
    ensures Ordered(after)
  {
    CompactionNumbers(before, c, outs, after);
    CompactionAge(before, base, c, outs, after);
    forall g | g in after[0] ensures g in before[0] {
      assert Remains(before, c, 0, g);
    }
    CompactionDisjoint(before, base, c, outs, after);
  }

  lemma CompactionDisjoint(before: Levels, base: Levels, c: Inputs, outs: seq<File>, after: Levels)
    requires Ordered(before) && Ready(before, base, c) && Outputs(before, c, outs)
    requires Swapped(before, c, outs, after)
    ensures DeeperDisjoint(after)
  {
    forall l | 1 <= l < NUM_LEVELS ensures Disjoint(after[l]) {
      if l == c.level + 1 {
        OutputLevelDisjoint(before, base, c, outs, after[l]);
      } else {
        forall g | g in after[l] ensures g in before[l] {
          assert Remains(before, c, l, g);
        }
        SameFilesDisjoint(before[l], after[l]);
      }
    }
  }

  // ---------- what is dropped ----------

  /** Rule (A): a newer entry for the same user key is itself old enough for every reader. */
  ghost predicate Hidden(c: Inputs, smallestSnapshot: nat, e: Entry) {
    exists d :: InInputs(c, d) && d.key.user == e.key.user && e.key.sn < d.key.sn <= smallestSnapshot
  }

  /** No file at `level + 2` or deeper has the key in its range. */
  predicate BaseLevel(base: Levels, level: nat, user: UserKey) {
    forall l, f :: level + 2 <= l < |base| && f in base[l] ==> !Spans(f, user)
  }

  /** Rule (A), or a deletion marker with nothing below it. */
  ghost predicate Dropped(c: Inputs, base: Levels, smallestSnapshot: nat, e: Entry) {
    || Hidden(c, smallestSnapshot, e)
    || (e.key.kind.Deletion? && e.key.sn <= smallestSnapshot && BaseLevel(base, c.level, e.key.user))
  }

  /** The outputs hold exactly the input entries that are not dropped. */
  ghost predicate Compacted(c: Inputs, base: Levels, smallestSnapshot: nat, outs: seq<File>) {
    forall e :: InOutputs(outs, e) <==> InInputs(c, e) && !Dropped(c, base, smallestSnapshot, e)
  }

  /** What is left: everything that is too new for the smallest snapshot, and of every key the newest entry that the snapshot
      sees, unless that is a deletion marker without a file that has the key in its range two levels down or deeper. */
  lemma OutputsAre(c: Inputs, base: Levels, smallestSnapshot: nat, outs: seq<File>, e: Entry)
    requires Compacted(c, base, smallestSnapshot, outs)
    ensures InOutputs(outs, e) <==>
      && InInputs(c, e)
      && (e.key.sn <= smallestSnapshot ==>
            && (forall d :: InInputs(c, d) && d.key.user == e.key.user && d.key.sn <= smallestSnapshot ==>
                  d.key.sn <= e.key.sn)
            && (e.key.kind.Deletion? ==>
                  exists l, f :: c.level + 2 <= l < |base| && f in base[l] && Spans(f, e.key.user)))
  {
    hide InInputs, InOutputs, Spans;
    if InInputs(c, e) && Hidden(c, smallestSnapshot, e) {
      var d :| InInputs(c, d) && d.key.user == e.key.user && e.key.sn < d.key.sn <= smallestSnapshot;
    }
  }

  /** Older entries for the key of a dropped deletion marker are all among the inputs. */
  lemma NothingBelow(levels: Levels, base: Levels, c: Inputs, e: Entry, l: nat, g: File, d: Entry)
    requires Ordered(levels) && Ready(levels, base, c)
    requires InInputs(c, e) && BaseLevel(base, c.level, e.key.user)
    requires Remains(levels, c, l, g) && d in g.entries && d.key.user == e.key.user
    ensures d.key.sn > e.key.sn
  {
    hide FileOk, DirectoryOrder, DistinctNumbers, DeeperDisjoint, Level0ByAge, GapFree;
    var x :| x in All(c) && e in x.entries;
    assert x in levels[c.level] || x in levels[c.level + 1];
    WithinRange(x, e);
    WithinRange(g, d);
    assert UserOverlap(g, x);
    assert x in c.in0 || x in c.in1;
    assert Newer(g, x);
  }

  ghost predicate InOutputs(outs: seq<File>, e: Entry) {
    exists o :: o in outs && e in o.entries
  }

  ghost predicate InRest(levels: Levels, c: Inputs, e: Entry) {
    exists l: nat, g :: Remains(levels, c, l, g) && e in g.entries
  }

  lemma ContentsAfter(before: Levels, c: Inputs, outs: seq<File>, after: Levels, e: Entry)
    requires |before| == NUM_LEVELS && c.level + 1 < NUM_LEVELS && Swapped(before, c, outs, after)
    ensures Has(after, e) <==> InOutputs(outs, e) || InRest(before, c, e)
    ensures Has(before, e) ==> InInputs(c, e) || InRest(before, c, e)
    ensures InRest(before, c, e) ==> Has(before, e)
  {
    if Has(after, e) {
      var l: nat, g :| l < |after| && g in after[l] && e in g.entries;
      assert Remains(before, c, l, g) || g in outs;
    }
    if InOutputs(outs, e) {
      var o :| o in outs && e in o.entries;
      assert o in after[c.level + 1];
    }
    if InRest(before, c, e) {
      var l: nat, g :| Remains(before, c, l, g) && e in g.entries;
      assert g in after[l];
    }
    if Has(before, e) {
      var l: nat, g :| l < |before| && g in before[l] && e in g.entries;
      assert g in All(c) || Remains(before, c, l, g);
    }
  }

  lemma InputsLive(levels: Levels, c: Inputs)
    requires InPlace(levels, c)
    ensures forall e :: InInputs(c, e) ==> Has(levels, e)
  {
    forall e | InInputs(c, e) ensures Has(levels, e) {
      var x :| x in All(c) && e in x.entries;
      assert x in levels[c.level] || x in levels[c.level + 1];
    }
  }

  /** An entry that is not in the outputs was dropped. */
  lemma NotInOutputs(base: Levels, c: Inputs, smallestSnapshot: nat, outs: seq<File>, e: Entry)
    requires Compacted(c, base, smallestSnapshot, outs) && InInputs(c, e)
    ensures InOutputs(outs, e) <==> !Dropped(c, base, smallestSnapshot, e)
  {
    hide Dropped, InInputs, InOutputs;
  }

  /** The outputs hold nothing of a key that is older than a dropped deletion marker. */
  lemma OutputsAreNewer(base: Levels, c: Inputs, smallestSnapshot: nat, outs: seq<File>, e: Entry, d: Entry)
    requires Compacted(c, base, smallestSnapshot, outs) && InInputs(c, e) && e.key.sn <= smallestSnapshot
    requires InOutputs(outs, d) && d.key.user == e.key.user
    ensures InInputs(c, d) && d.key.sn >= e.key.sn
  {
    hide InInputs, InOutputs, BaseLevel;
  }

  lemma RestIsNewer(before: Levels, base: Levels, c: Inputs, e: Entry, d: Entry)
    requires Ordered(before) && Ready(before, base, c)
    requires InInputs(c, e) && BaseLevel(base, c.level, e.key.user)
    requires InRest(before, c, d) && d.key.user == e.key.user
    ensures d.key.sn > e.key.sn
  {
    hide Ordered, Ready, BaseLevel, InInputs, Remains;
    var l: nat, g :| Remains(before, c, l, g) && d in g.entries;
    NothingBelow(before, base, c, e, l, g, d);
  }

  /** An entry that is lost was dropped, and then every entry left for its key is newer. */
  lemma LostWasDropped(before: Levels, base: Levels, c: Inputs, smallestSnapshot: nat, outs: seq<File>,
                       after: Levels, h: seq<Entry>, e: Entry)
    requires Ordered(before) && Ready(before, base, c) && Swapped(before, c, outs, after)
    requires Compacted(c, base, smallestSnapshot, outs)
    requires forall x :: Has(before, x) ==> Recorded(h, x)
    requires Has(before, e) && !Has(after, e)
    ensures Dropped(c, base, smallestSnapshot, e)
    ensures !Hidden(c, smallestSnapshot, e) ==>
              forall d :: Has(after, d) && d.key.user == e.key.user ==> d.key.sn > e.key.sn
  {
    ReadyInPlace(before, base, c);
    ContentsAfter(before, c, outs, after, e);
    InputsLive(before, c);
    hide Ordered, Ready, Swapped, Compacted, Has, InInputs, InOutputs, InRest, Hidden, BaseLevel, InPlace;
    NotInOutputs(base, c, smallestSnapshot, outs, e);
    if !Hidden(c, smallestSnapshot, e) {
      forall d | Has(after, d) && d.key.user == e.key.user ensures d.key.sn > e.key.sn {
        ContentsAfter(before, c, outs, after, d);
        if InOutputs(outs, d) {
          OutputsAreNewer(base, c, smallestSnapshot, outs, e, d);
          assert Recorded(h, d) && Recorded(h, e);
        } else {
          RestIsNewer(before, base, c, e, d);
        }
      }
    }
  }

  lemma ReadyInPlace(levels: Levels, base: Levels, c: Inputs)
    requires Ready(levels, base, c)
    ensures InPlace(levels, c)
  {
  }

  /** The heart of the matter: for a reader at `smallestSnapshot` or later nothing changes. */
  lemma VisibleAfter(before: Levels, after: Levels, c: Inputs, smallestSnapshot: nat, h: seq<Entry>,
                     user: UserKey, s: nat)
    requires History(h) && forall e :: Has(before, e) ==> Recorded(h, e)
    requires forall e :: Has(after, e) ==> Has(before, e)
    requires forall e :: InInputs(c, e) ==> Has(before, e)
    requires forall e :: Has(before, e) && !Has(after, e) && !Hidden(c, smallestSnapshot, e) ==>
      e.key.kind.Deletion? && forall d :: Has(after, d) && d.key.user == e.key.user ==> d.key.sn > e.key.sn
    requires s >= smallestSnapshot && Agree(before, h, user, s)
    ensures Agree(after, h, user, s)
  {
    if exists n :: Newest(h, user, s, n) && Has(before, h[n]) {
      var n :| Newest(h, user, s, n) && Has(before, h[n]);
      var e := h[n];
      if !Has(after, e) {
        assert !Hidden(c, smallestSnapshot, e) by {
          forall d | InInputs(c, d) && d.key.user == e.key.user && e.key.sn < d.key.sn
            ensures d.key.sn > smallestSnapshot
          {
            assert Recorded(h, d);
          }
        }
        forall d | Has(after, d) ensures !Matches(d, user, s) {
          assert Recorded(h, d);
        }
      }
    }
  }

  /** Compaction keeps the history for every reader at `smallestSnapshot` or later. */
  lemma CompactionKeeps(before: Levels, base: Levels, c: Inputs, smallestSnapshot: nat, outs: seq<File>,
                        after: Levels, h: seq<Entry>, floor: nat)
    requires Stores(before, h, floor) && Ready(before, base, c) && Outputs(before, c, outs)
    requires Compacted(c, base, smallestSnapshot, outs)
    requires Applied(before, CompactionEdit(c, outs), after)
    ensures Stores(after, h, if floor < smallestSnapshot then smallestSnapshot else floor)
  {
    FilesAfter(before, c, outs, after);
    CompactionOrder(before, base, c, outs, after);
    CompactionLosesNothing(before, base, c, smallestSnapshot, outs, after, h);
    forall user, s | s >= floor && s >= smallestSnapshot ensures Agree(after, h, user, s) {
      assert Agree(before, h, user, s);
      VisibleAfter(before, after, c, smallestSnapshot, h, user, s);
    }
  }

  lemma CompactionLosesNothing(before: Levels, base: Levels, c: Inputs, smallestSnapshot: nat, outs: seq<File>,
                               after: Levels, h: seq<Entry>)
    requires Ordered(before) && Ready(before, base, c) && Swapped(before, c, outs, after)
    requires Compacted(c, base, smallestSnapshot, outs)
    requires forall x :: Has(before, x) ==> Recorded(h, x)
    ensures forall e :: Has(after, e) ==> Has(before, e)
    ensures forall e :: InInputs(c, e) ==> Has(before, e)
    ensures forall e :: Has(before, e) && !Has(after, e) && !Hidden(c, smallestSnapshot, e) ==>
      e.key.kind.Deletion? && forall d :: Has(after, d) && d.key.user == e.key.user ==> d.key.sn > e.key.sn
  {
    InputsLive(before, c);
    forall e | Has(after, e) ensures Has(before, e) {
      ContentsAfter(before, c, outs, after, e);
      if InOutputs(outs, e) {
        assert InInputs(c, e);
      }
    }
    forall e | Has(before, e) && !Has(after, e) && !Hidden(c, smallestSnapshot, e)
      ensures e.key.kind.Deletion? && forall d :: Has(after, d) && d.key.user == e.key.user ==> d.key.sn > e.key.sn
    {
      LostWasDropped(before, base, c, smallestSnapshot, outs, after, h, e);
    }
  }

  /** A trivial move: one input file, nothing in the next level, and the file itself as output. */
  lemma MoveKeeps(before: Levels, base: Levels, c: Inputs, after: Levels, h: seq<Entry>, floor: nat)
    requires Stores(before, h, floor) && Ready(before, base, c)
    requires |c.in0| == 1 && c.in1 == []
    requires Applied(before, CompactionEdit(c, c.in0), after)
    ensures Stores(after, h, floor)
  {
    var f := c.in0[0];
    assert f in c.in0 && All(c) == [f];
    assert f in before[c.level];
    assert Outputs(before, c, c.in0);
    FilesAfter(before, c, c.in0, after);
    CompactionOrder(before, base, c, c.in0, after);
    InputsLive(before, c);
    forall e ensures Has(after, e) <==> Has(before, e) {
      ContentsAfter(before, c, c.in0, after, e);
    }
    forall user, s | s >= floor ensures Agree(after, h, user, s) {
      assert Agree(before, h, user, s);
    }
  }

  // ---------- flushes while the compaction runs ----------

  /** A memtable flushed while the compaction runs goes where it does not disturb it. */
  lemma ReadyAfterFlush(before: Levels, base: Levels, c: Inputs, f: File, level: nat, after: Levels)
    requires Ready(before, base, c) && FlushLevel(before, f, level)
    requires forall l, g :: 0 <= l < |before| && g in before[l] ==> Newer(f, g)
    requires Applied(before, FileEdit({}, [(level, f)]), after)
    ensures Ready(after, base, c)
  {
    assert forall l, g :: 0 <= l < NUM_LEVELS && g in after[l] ==> g in before[l] || (l == level && g == f);
    forall x | x in All(c) && level > c.level
      ensures !UserOverlap(f, x)
    {
      assert x in before[c.level] || x in before[c.level + 1];
    }
    assert forall h, x :: h in after[c.level] && h !in c.in0 && x in c.in0 ==> Newer(h, x);
  }
}
