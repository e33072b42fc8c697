/** Why the hypothesis about boundary files of the output level is needed: `SetupOtherInputs` extends only
    the inputs of the upper level by boundary files (db/version_set.cc, lines 1403-1462), and then dropping
    a deletion marker can bring back the value that it deleted. */
module BoundaryFiles {
  import opened DbFormat
  import opened Version
  import opened Storage
  import opened Compaction
  import opened ExactCompaction
  import opened InputSelection
  import opened Database

  const W1 := Entry(InternalKey(3.0, 1, Value), "old")
  const W2 := Entry(InternalKey(5.0, 2, Value), "deleted")
  const W3 := Entry(InternalKey(5.0, 3, Deletion), "")
  const W4 := Entry(InternalKey(3.0, 4, Value), "new")
  const WRITES := [W1, W2, W3, W4]

  const UPPER := File(12, 0, W4.key, W4.key, [W4])
  const FIRST := File(10, 0, W1.key, W3.key, [W1, W3])
  const SECOND := File(11, 0, W2.key, W2.key, [W2])
  const BEFORE: Levels := [[], [UPPER], [FIRST, SECOND], [], [], [], []]
  const PICKED := Inputs(1, [UPPER], [FIRST])
  const MERGED_FILE := File(13, 0, W4.key, W4.key, [W4])
  const AFTER: Levels := [[], [], [MERGED_FILE, SECOND], [], [], [], []]

  lemma BeforeFiles()
    ensures FileOk(UPPER) && FileOk(FIRST) && FileOk(SECOND) && FileOk(MERGED_FILE)
    ensures forall l, f :: 0 <= l < NUM_LEVELS ==> (f in BEFORE[l] <==>
      (l == 1 && f == UPPER) || (l == 2 && f == FIRST) || (l == 2 && f == SECOND))
    ensures forall l, f :: 0 <= l < NUM_LEVELS ==> (f in AFTER[l] <==>
      (l == 2 && f == MERGED_FILE) || (l == 2 && f == SECOND))
  {
  }

  lemma TwoFiles(f: File, g: File)
    requires Less(f.largest, g.smallest) && FileLess(f, g)
    ensures Disjoint([f, g]) && BySmallest([f, g])
  {
  }

  lemma BeforeOrdered()
    ensures Ordered(BEFORE)
  {
    BeforeFiles();
    TwoFiles(FIRST, SECOND);
    assert Newer(UPPER, FIRST) && Newer(UPPER, SECOND);
    hide Disjoint, BySmallest, FileOk, Newer;
    assert forall l :: 0 <= l < NUM_LEVELS && l != 2 ==> |BEFORE[l]| < 2;
    forall l | 0 <= l < NUM_LEVELS ensures BySmallest(BEFORE[l]) && Disjoint(BEFORE[l]) {
      if l != 2 {
        ShortLevel(BEFORE[l]);
      }
    }
  }

  lemma ShortLevel(files: seq<File>)
    requires |files| < 2
    ensures Disjoint(files) && BySmallest(files)
  {
  }

  lemma AfterOrdered()
    ensures Ordered(AFTER)
  {
    BeforeFiles();
    TwoFiles(MERGED_FILE, SECOND);
    hide Disjoint, BySmallest, FileOk, Newer;
    assert forall l :: 0 <= l < NUM_LEVELS && l != 2 ==> |AFTER[l]| < 2;
    forall l | 0 <= l < NUM_LEVELS ensures BySmallest(AFTER[l]) && Disjoint(AFTER[l]) {
      if l != 2 {
        ShortLevel(AFTER[l]);
      }
    }
  }

  lemma BeforeHas(e: Entry)
    ensures Has(BEFORE, e) <==> e in WRITES
  {
    BeforeFiles();
    if e == W4 {
      assert UPPER in BEFORE[1];
    } else if e == W1 || e == W3 {
      assert FIRST in BEFORE[2];
    } else if e == W2 {
      assert SECOND in BEFORE[2];
    }
  }

  lemma BeforeStores()
    ensures Stores(BEFORE, WRITES, 0)
  {
    hide Has, Ordered;
    BeforeOrdered();
    forall e ensures Has(BEFORE, e) <==> e in WRITES {
      BeforeHas(e);
    }
    forall user, s: nat ensures Agree(BEFORE, WRITES, user, s) {
      var n := NewestExists(WRITES, user, s);
      if n >= 0 {
        assert Has(BEFORE, WRITES[n]);
      }
    }
  }

  lemma PickedHere()
    ensures Picked(BEFORE, PICKED) && !BoundaryClosed(BEFORE, PICKED)
  {
    BeforeFiles();
    assert UPPER in PICKED.in0 && FIRST in PICKED.in1;
    assert HullOverlap(PICKED.in0, FIRST);
    assert All(PICKED) == [UPPER, FIRST];
    forall k | InHull(All(PICKED), k) ensures Covered(All(PICKED), k) {
      assert Spans(FIRST, k);
    }
    assert SECOND in BEFORE[2] && SECOND !in PICKED.in1;
  }

  lemma CompactedHere()
    ensures Compacted(PICKED, BEFORE, 4, [MERGED_FILE])
  {
    BeforeFiles();
    assert All(PICKED) == [UPPER, FIRST];
    assert InInputs(PICKED, W4) && InInputs(PICKED, W1) && InInputs(PICKED, W3);
    forall e ensures InOutputs([MERGED_FILE], e) <==> InInputs(PICKED, e) && !Dropped(PICKED, BEFORE, 4, e) {
      assert MERGED_FILE in [MERGED_FILE];
      assert Hidden(PICKED, 4, W1);
      assert BaseLevel(BEFORE, 1, 5.0);
    }
  }

  lemma AppliedHere()
    ensures Applied(BEFORE, CompactionEdit(PICKED, [MERGED_FILE]), AFTER)
  {
    BeforeFiles();
    CompactionEditFiles(PICKED, [MERGED_FILE]);
    var d := CompactionEdit(PICKED, [MERGED_FILE]).deleted;
    assert UPPER in PICKED.in0 && FIRST in PICKED.in1;
    assert (1, 12) in d && (2, 10) in d && (2, 11) !in d;
  }

  /** A version, a selection that the engine makes and the result of its compaction: the deleted value is
      back, although every reader's snapshot is at least 4. */
  lemma DeletedValueReturns()
    ensures Stores(BEFORE, WRITES, 0)
    ensures Picked(BEFORE, PICKED) && !BoundaryClosed(BEFORE, PICKED)
    ensures Compacted(PICKED, BEFORE, 4, [MERGED_FILE])
    ensures Applied(BEFORE, CompactionEdit(PICKED, [MERGED_FILE]), AFTER)
    ensures Finds(BEFORE, 5.0, 4, Some(W3)) && Lookup(WRITES, 5.0, 4) == None
    ensures Ordered(AFTER) && Finds(AFTER, 5.0, 4, Some(W2)) && Shown(W2) == Some("deleted")
    ensures Revives(BEFORE, PICKED, BEFORE, 4, W3, W2)
  {
    RevivedHere();
    hide Stores, Picked, BoundaryClosed, Compacted, Applied;
    BeforeStores();
    PickedHere();
    CompactedHere();
    AppliedHere();
    BeforeFinds();
    AfterFinds();
  }

  lemma BeforeFinds()
    ensures Finds(BEFORE, 5.0, 4, Some(W3)) && Lookup(WRITES, 5.0, 4) == None
  {
    hide Has;
    forall e ensures Has(BEFORE, e) <==> e in WRITES {
      BeforeHas(e);
    }
    assert Newest(WRITES, 5.0, 4, 2);
    LookupIsNewest(WRITES, 5.0, 4, 2);
  }

  lemma AfterFinds()
    ensures Ordered(AFTER) && Finds(AFTER, 5.0, 4, Some(W2))
  {
    AfterOrdered();
    BeforeFiles();
    hide Ordered, FileOk, Less;
    assert SECOND in AFTER[2] && W2 in SECOND.entries;
    assert Has(AFTER, W2);
    forall e | Has(AFTER, e) ensures e == W2 || e == W4 {
    }
  }

  lemma RevivedHere()
    ensures Revives(BEFORE, PICKED, BEFORE, 4, W3, W2)
  {
    hide Has;
    forall e ensures Has(BEFORE, e) <==> e in WRITES {
      BeforeHas(e);
    }
    BeforeFiles();
    assert All(PICKED) == [UPPER, FIRST];
    assert FIRST in All(PICKED) && W3 in FIRST.entries;
    assert Remains(BEFORE, PICKED, 2, SECOND) && W2 in SECOND.entries;
    forall x | InRest(BEFORE, PICKED, x) ensures x == W2 {
      var l: nat, g :| Remains(BEFORE, PICKED, l, g) && x in g.entries;
      assert g == SECOND;
    }
    assert BaseLevel(BEFORE, 1, 5.0);
  }
}
