/** Exactly when a compaction keeps what readers see, without any hypothesis about boundary files
    (db/db_impl.cc, lines 878-999; db/version_set.cc, lines 1403-1462). */
module ExactCompaction {
  import opened DbFormat
  import opened Version
  import opened Storage
  import opened Compaction
  import opened InputSelection

  function Answer(r: Option<Entry>): Option<Val> {
    if r.Some? then Shown(r.value) else None
  }

  /** Searching the version answers every reader at `from` or later as the history does. */
  ghost predicate KeepsAnswers(levels: Levels, h: seq<Entry>, from: nat) {
    forall user, s: nat, r :: s >= from && Finds(levels, user, s, r) ==> Lookup(h, user, s) == Answer(r)
  }

  /** The marker `d` hides the value `e` from the reader at `smallestSnapshot`; the compaction reads and drops it, because
      no file two levels down has the key in its range, but the newest value below it is in a file that stays. */
  ghost predicate Revives(levels: Levels, c: Inputs, base: Levels, smallestSnapshot: nat, d: Entry, e: Entry) {
    && InInputs(c, d) && !InRest(levels, c, d)
    && d.key.kind.Deletion? && d.key.sn <= smallestSnapshot && BaseLevel(base, c.level, d.key.user)
    && (forall x :: Has(levels, x) && Matches(x, d.key.user, smallestSnapshot) ==> x.key.sn <= d.key.sn)
    && InRest(levels, c, e) && e.key.kind.Value? && Older(e, d)
    && (forall x :: InRest(levels, c, x) && Older(x, d) ==> x.key.sn <= e.key.sn)
  }

  predicate Older(e: Entry, d: Entry) {
    e.key.user == d.key.user && e.key.sn < d.key.sn
  }

  /** What the compaction starts from: a version that stands for the history, and inputs out of it. */
  ghost predicate Starts(before: Levels, c: Inputs, smallestSnapshot: nat, h: seq<Entry>) {
    && InPlace(before, c)
    && History(h)
    && (forall e :: Has(before, e) ==> Recorded(h, e))
    && forall user, s :: s >= smallestSnapshot ==> Agree(before, h, user, s)
  }

  lemma AfterHas(before: Levels, base: Levels, c: Inputs, smallestSnapshot: nat, outs: seq<File>, after: Levels, e: Entry)
    requires InPlace(before, c) && Swapped(before, c, outs, after) && Compacted(c, base, smallestSnapshot, outs)
    ensures Has(after, e) <==> InRest(before, c, e) || (InInputs(c, e) && !Dropped(c, base, smallestSnapshot, e))
    ensures Has(before, e) <==> InRest(before, c, e) || InInputs(c, e)
  {
    ContentsAfter(before, c, outs, after, e);
    InputsLive(before, c);
  }

  /** A dropped marker that is the newest entry for a reader leaves nothing, a marker, or a revived value. */
  lemma AnswerKept(before: Levels, base: Levels, c: Inputs, smallestSnapshot: nat, outs: seq<File>, after: Levels,
                   h: seq<Entry>, user: UserKey, s: nat, r: Option<Entry>)
    requires Starts(before, c, smallestSnapshot, h) && s >= smallestSnapshot
    requires Swapped(before, c, outs, after) && Compacted(c, base, smallestSnapshot, outs)
    requires forall d, e :: !Revives(before, c, base, smallestSnapshot, d, e)
    requires Finds(after, user, s, r)
    ensures Lookup(h, user, s) == Answer(r)
  {
    hide Has, InRest, InInputs, Dropped, Compacted, Swapped, BaseLevel, InPlace;
    forall e ensures Has(after, e) <==> InRest(before, c, e) || (InInputs(c, e) && !Dropped(c, base, smallestSnapshot, e))
      ensures Has(before, e) <==> InRest(before, c, e) || InInputs(c, e)
    {
      AfterHas(before, base, c, smallestSnapshot, outs, after, e);
    }
    assert Agree(before, h, user, s);
    var n := NewestExists(h, user, s);
    if n < 0 {
      LookupFindsNothing(h, user, s);
      return;
    }
    LookupIsNewest(h, user, s, n);
    var d := h[n];
    if Has(before, d) {
      if Has(after, d) {
        assert r.Some? && Recorded(h, r.value) && r.value.key.sn == d.key.sn;
      } else {
        MarkerDropped(before, base, c, smallestSnapshot, h, user, s, n);
        if r.Some? && r.value.key.kind.Value? {
          RevivedHere(before, base, c, smallestSnapshot, outs, after, h, user, s, n, r.value);
        }
      }
    }
  }

  lemma MarkerDropped(before: Levels, base: Levels, c: Inputs, smallestSnapshot: nat, h: seq<Entry>, user: UserKey,
                      s: nat, n: int)
    requires Starts(before, c, smallestSnapshot, h) && s >= smallestSnapshot && Newest(h, user, s, n)
    requires InInputs(c, h[n]) && Dropped(c, base, smallestSnapshot, h[n])
    ensures h[n].key.kind.Deletion? && h[n].key.sn <= smallestSnapshot && BaseLevel(base, c.level, user)
  {
    InputsLive(before, c);
    assert forall d :: InInputs(c, d) ==> Recorded(h, d);
  }

  lemma RevivedHere(before: Levels, base: Levels, c: Inputs, smallestSnapshot: nat, outs: seq<File>, after: Levels,
                    h: seq<Entry>, user: UserKey, s: nat, n: int, e: Entry)
    requires Starts(before, c, smallestSnapshot, h) && s >= smallestSnapshot && Newest(h, user, s, n)
    requires Swapped(before, c, outs, after) && Compacted(c, base, smallestSnapshot, outs)
    requires InInputs(c, h[n]) && !Has(after, h[n])
    requires h[n].key.kind.Deletion? && h[n].key.sn <= smallestSnapshot && BaseLevel(base, c.level, user)
    requires Finds(after, user, s, Some(e)) && e.key.kind.Value?
    ensures Revives(before, c, base, smallestSnapshot, h[n], e)
  {
    hide Has, InRest, InInputs, Dropped, Compacted, Swapped, BaseLevel, InPlace;
    var d := h[n];
    AfterHas(before, base, c, smallestSnapshot, outs, after, d);
    AfterHas(before, base, c, smallestSnapshot, outs, after, e);
    assert Recorded(h, e) && Older(e, d);
    HiddenByMarker(c, base, smallestSnapshot, d, e);
    forall x | Has(before, x) && Matches(x, user, smallestSnapshot) ensures x.key.sn <= d.key.sn {
      assert Recorded(h, x);
    }
    forall x | InRest(before, c, x) && Older(x, d) ensures x.key.sn <= e.key.sn {
      AfterHas(before, base, c, smallestSnapshot, outs, after, x);
    }
  }

  lemma HiddenByMarker(c: Inputs, base: Levels, smallestSnapshot: nat, d: Entry, e: Entry)
    requires InInputs(c, d) && d.key.sn <= smallestSnapshot && Older(e, d)
    ensures Dropped(c, base, smallestSnapshot, e)
  {
  }

  lemma RevivedIsWrong(before: Levels, base: Levels, c: Inputs, smallestSnapshot: nat, outs: seq<File>, after: Levels,
                       h: seq<Entry>, d: Entry, e: Entry)
    requires Starts(before, c, smallestSnapshot, h)
    requires Swapped(before, c, outs, after) && Compacted(c, base, smallestSnapshot, outs)
    requires Revives(before, c, base, smallestSnapshot, d, e)
    ensures Finds(after, d.key.user, smallestSnapshot, Some(e))
    ensures Lookup(h, d.key.user, smallestSnapshot) == None && Shown(e) == Some(e.val)
  {
    hide Has, InRest, InInputs, Compacted, Swapped, BaseLevel, InPlace, Hidden;
    var user, s := d.key.user, smallestSnapshot;
    AfterHas(before, base, c, smallestSnapshot, outs, after, d);
    AfterHas(before, base, c, smallestSnapshot, outs, after, e);
    forall x | Has(after, x) && Matches(x, user, s) ensures x.key.sn <= e.key.sn {
      AfterHas(before, base, c, smallestSnapshot, outs, after, x);
      assert Recorded(h, x) && Recorded(h, d) && x != d;
      HiddenByMarker(c, base, smallestSnapshot, d, x);
    }
    assert Agree(before, h, user, s) && Recorded(h, d) && Matches(d, user, s);
    var n :| Newest(h, user, s, n) && Has(before, h[n]);
    assert h[n] == d;
    LookupIsNewest(h, user, s, n);
  }

  /** A compaction changes what some reader sees if and only if it revives a value. */
  lemma KeepsExactly(before: Levels, base: Levels, c: Inputs, smallestSnapshot: nat, outs: seq<File>, after: Levels,
                     h: seq<Entry>)
    requires Starts(before, c, smallestSnapshot, h)
    requires Swapped(before, c, outs, after) && Compacted(c, base, smallestSnapshot, outs)
    ensures KeepsAnswers(after, h, smallestSnapshot) <==>
            !exists d, e :: Revives(before, c, base, smallestSnapshot, d, e)
  {
    hide Starts, Swapped, Compacted, Revives, Finds;
    if exists d, e :: Revives(before, c, base, smallestSnapshot, d, e) {
      var d, e :| Revives(before, c, base, smallestSnapshot, d, e);
      RevivedIsWrong(before, base, c, smallestSnapshot, outs, after, h, d, e);
    } else {
      forall user, s: nat, r | s >= smallestSnapshot && Finds(after, user, s, r) ensures Lookup(h, user, s) == Answer(r) {
        AnswerKept(before, base, c, smallestSnapshot, outs, after, h, user, s, r);
      }
    }
  }

  /** The hypothesis about boundary files is enough: then nothing can be revived. */
  lemma ReadyRevivesNothing(levels: Levels, base: Levels, c: Inputs, smallestSnapshot: nat, d: Entry, e: Entry)
    requires Ordered(levels) && Ready(levels, base, c)
    ensures !Revives(levels, c, base, smallestSnapshot, d, e)
  {
    if Revives(levels, c, base, smallestSnapshot, d, e) {
      var l: nat, g :| Remains(levels, c, l, g) && e in g.entries;
      NothingBelow(levels, base, c, d, l, g, e);
    }
  }

  // ---------- the new version is in order in any case ----------

  /** An input is on the side of `g` that the inputs of `level` are on. */
  lemma FileAside(levels: Levels, c: Inputs, g: File, z: File)
    requires Ordered(levels) && Picked(levels, c) && g in levels[c.level + 1] && g !in c.in1 && z in All(c)
    ensures (forall x :: x in c.in0 ==> g.largest.user < x.smallest.user) ==> Less(g.largest, z.smallest)
    ensures (forall x :: x in c.in0 ==> x.largest.user < g.smallest.user) ==> Less(z.largest, g.smallest)
  {
    hide Complete, GapFree, FileOk;
    assert FileOk(z) && FileOk(g) by {
      assert z in levels[c.level] || z in levels[c.level + 1];
    }
    RangeAscends(z);
    RangeAscends(g);
    if z !in c.in0 {
      assert HullOverlap(c.in0, z);
      DisjointIsApart(levels[c.level + 1], z, g);
    }
  }

  /** A file of the output level that stays lies on one side of all inputs. */
  lemma OneSide(levels: Levels, c: Inputs, g: File, e: Entry)
    requires Ordered(levels) && Picked(levels, c) && g in levels[c.level + 1] && g !in c.in1 && InInputs(c, e)
    ensures (forall x :: x in c.in0 ==> g.largest.user < x.smallest.user) ==> Less(g.largest, e.key)
    ensures (forall x :: x in c.in0 ==> x.largest.user < g.smallest.user) ==> Less(e.key, g.smallest)
  {
    var z := InputOf(levels, c, e);
    hide Ordered, Picked, FileOk, InInputs;
    FileAside(levels, c, g, z);
    WithinRange(z, e);
  }

  /** The input that an entry comes from. */
  lemma InputOf(levels: Levels, c: Inputs, e: Entry) returns (z: File)
    requires Ordered(levels) && Picked(levels, c) && InInputs(c, e)
    ensures z in All(c) && e in z.entries && FileOk(z)
  {
    hide Complete, GapFree, FileOk;
    z :| z in All(c) && e in z.entries;
    assert z in levels[c.level] || z in levels[c.level + 1];
  }

  lemma WhichSide(levels: Levels, c: Inputs, g: File)
    requires Picked(levels, c) && g in levels[c.level + 1] && g !in c.in1
    ensures || (forall x :: x in c.in0 ==> g.largest.user < x.smallest.user)
            || (forall x :: x in c.in0 ==> x.largest.user < g.smallest.user)
  {
    if x :| x in c.in0 && x.smallest.user <= g.largest.user {
      forall y | y in c.in0 ensures y.largest.user < g.smallest.user {
        assert !HullOverlap(c.in0, g);
      }
    }
  }

  lemma OutputAside(levels: Levels, c: Inputs, o: File, g: File)
    requires Ordered(levels) && Picked(levels, c) && g in levels[c.level + 1] && g !in c.in1
    requires FileOk(o) && forall e :: e in o.entries ==> InInputs(c, e)
    ensures Apart(o, g)
  {
    hide Picked, Ordered;
    WhichSide(levels, c, g);
    var first, last := o.entries[0], o.entries[|o.entries| - 1];
    OneSide(levels, c, g, first);
    OneSide(levels, c, g, last);
  }

  lemma PickedDisjoint(before: Levels, c: Inputs, outs: seq<File>, after: Levels)
    requires Ordered(before) && Picked(before, c) && Outputs(before, c, outs) && Swapped(before, c, outs, after)
    ensures DeeperDisjoint(after)
  {
    forall l | 1 <= l < NUM_LEVELS ensures Disjoint(after[l]) {
      forall a, b | a in after[l] && b in after[l] && a != b ensures Apart(a, b) {
        if l == c.level + 1 && a in outs && b in outs {
          DisjointIsApart(outs, a, b);
        } else if l == c.level + 1 && b in outs {
          OutputAside(before, c, b, a);
        } else if l == c.level + 1 && a in outs {
          OutputAside(before, c, a, b);
        } else {
          assert Remains(before, c, l, a) && Remains(before, c, l, b);
          DisjointIsApart(before[l], a, b);
        }
      }
      ApartIsDisjoint(after[l]);
    }
  }

  lemma PickedAge(before: Levels, c: Inputs, o: File, l: nat, g: File)
    requires Ordered(before) && DistinctWrites(before) && Picked(before, c)
    requires forall e :: e in o.entries ==> InInputs(c, e)
    requires Remains(before, c, l, g)
    ensures l < c.level + 1 ==> Newer(g, o)
    ensures l > c.level + 1 ==> Newer(o, g)
  {
    forall x | x in All(c)
      ensures l < c.level + 1 ==> Newer(g, x)
      ensures l > c.level + 1 ==> Newer(x, g)
    {
      assert x in c.in0 || x in c.in1;
      if l == c.level && x in c.in0 {
        LeftBehindIsNewer(before, c, g, x);
      }
    }
    OutputNewer(c, o, g);
  }

  /** Whatever the engine picks, the version after the compaction can be searched. */
  lemma PickedStaysOrdered(before: Levels, c: Inputs, outs: seq<File>, after: Levels)
    requires Ordered(before) && DistinctWrites(before) && Picked(before, c)
    requires Outputs(before, c, outs) && Applied(before, CompactionEdit(c, outs), after)
    ensures Ordered(after) && Swapped(before, c, outs, after)
  {
    hide Picked, Applied, Outputs, DistinctWrites, FilesOk, DirectoryOrder, DistinctNumbers, DeeperDisjoint, Swapped;
    InputsInPlace(before, c);
    FilesAfter(before, c, outs, after);
    FilesStayOk(before, c, outs, after);
    CompactionNumbers(before, c, outs, after);
    PickedDisjoint(before, c, outs, after);
    PickedNewer(before, c, outs, after);
  }

  lemma InputsInPlace(before: Levels, c: Inputs)
    requires |before| == NUM_LEVELS && Picked(before, c)
    ensures InPlace(before, c)
  {
    hide Complete, GapFree;
  }

  lemma FilesStayOk(before: Levels, c: Inputs, outs: seq<File>, after: Levels)
    requires |before| == NUM_LEVELS && FilesOk(before) && Outputs(before, c, outs) && Swapped(before, c, outs, after)
    ensures |after| == NUM_LEVELS && FilesOk(after) && DirectoryOrder(after)
  {
    hide FileOk;
  }

  lemma PickedNewer(before: Levels, c: Inputs, outs: seq<File>, after: Levels)
    requires Ordered(before) && DistinctWrites(before) && Picked(before, c)
    requires Outputs(before, c, outs) && Swapped(before, c, outs, after)
    ensures |after| == NUM_LEVELS && ShallowIsNewer(after) && Level0ByAge(after[0])
  {
    forall l, m, a, b | 0 <= l < m < NUM_LEVELS && a in after[l] && b in after[m] ensures Newer(a, b) {
      if !Remains(before, c, m, b) {
        PickedAge(before, c, b, l, a);
      } else if !Remains(before, c, l, a) {
        PickedAge(before, c, a, m, b);
      }
    }
    forall g | g in after[0] ensures g in before[0] {
      assert Remains(before, c, 0, g);
    }
  }

  /** For every compaction that the engine picks: the engine's reads at the smallest snapshot or later are right after it
      if and only if it revives no value. */
  lemma PickedKeepsExactly(before: Levels, c: Inputs, smallestSnapshot: nat, outs: seq<File>, after: Levels,
                           h: seq<Entry>, floor: nat)
    requires Stores(before, h, floor) && floor <= smallestSnapshot && Picked(before, c) && Outputs(before, c, outs)
    requires Compacted(c, before, smallestSnapshot, outs) && Applied(before, CompactionEdit(c, outs), after)
    ensures Ordered(after)
    ensures KeepsAnswers(after, h, smallestSnapshot) <==>
            !exists d, e :: Revives(before, c, before, smallestSnapshot, d, e)
  {
    hide Compacted, Revives, Finds, Applied;
    StoredOnce(before, h, floor);
    PickedStaysOrdered(before, c, outs, after);
    KeepsExactly(before, before, c, smallestSnapshot, outs, after, h);
  }
}
