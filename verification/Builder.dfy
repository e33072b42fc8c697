/** `VersionSet::Builder`: a whole list of edits applied in one go (db/version_set.cc, lines 590-755 and
    886-1011), and its agreement with applying them one version at a time. */
module Builder {
  import opened DbFormat
  import opened Version

  /** The same place in a level's set of added files. */
  predicate SamePlace(f: File, g: File) {
    f.smallest == g.smallest && f.number == g.number
  }

  lemma PlacesAreTotal(f: File, g: File)
    ensures FileLess(f, g) || FileLess(g, f) || SamePlace(f, g)
    ensures !(FileLess(f, g) && FileLess(g, f)) && !(FileLess(f, g) && SamePlace(f, g))
  {
    if f.smallest.user == g.smallest.user && Tag(f.smallest) == Tag(g.smallest) {
      assert f.smallest.sn == g.smallest.sn;
    }
  }

  /** `std::set::insert`: nothing happens if the place is taken. */
  function Insert(files: seq<File>, f: File): (r: seq<File>)
    requires BySmallest(files)
    ensures BySmallest(r)
    ensures (exists g :: g in files && SamePlace(f, g)) ==> r == files
    ensures (forall g :: g in files ==> !SamePlace(f, g)) ==> forall g :: g in r <==> g in files || g == f
    ensures forall g :: g in files ==> g in r
    ensures forall g :: g in r ==> g in files || g == f
  {
    if files == [] then [f]
    else if FileLess(f, files[0]) then [f] + files
    else if SamePlace(f, files[0]) then files
    else
      PlacesAreTotal(f, files[0]);
      var rest := Insert(files[1..], f);
      assert forall g :: g in files <==> g == files[0] || g in files[1..];
      assert forall g :: g in rest ==> FileLess(files[0], g);
      [files[0]] + rest
  }

  /** What the builder remembers of a level. */
  datatype LevelState = LevelState(deleted: set<nat>, added: seq<File>)

  function AddFiles(s: LevelState, l: nat, files: seq<(nat, File)>): (r: LevelState)
    requires BySmallest(s.added)
    ensures BySmallest(r.added)
    decreases |files|
  {
    if files == [] then s
    else
      var (level, f) := files[0];
      AddFiles(if level == l then LevelState(s.deleted - {f.number}, Insert(s.added, f)) else s, l, files[1..])
  }

  /** The effect of one edit on one level: deletions first, then additions, which revoke deletions. */
  function ApplyToLevel(s: LevelState, l: nat, e: FileEdit): (r: LevelState)
    requires BySmallest(s.added)
    ensures BySmallest(r.added)
  {
    AddFiles(s.(deleted := s.deleted + set d | d in e.deleted && d.0 == l :: d.1), l, e.added)
  }

  function ApplyAll(edits: seq<FileEdit>, l: nat): (r: LevelState)
    ensures BySmallest(r.added)
  {
    if edits == [] then LevelState({}, [])
    else ApplyToLevel(ApplyAll(edits[..|edits| - 1], l), l, edits[|edits| - 1])
  }

  /** Files of base and added files of a level, in order, without the deleted ones. */
  ghost predicate LevelBuilt(baseFiles: seq<File>, s: LevelState, files: seq<File>) {
    && BySmallest(files)
    && forall f :: f in files <==> (f in baseFiles || f in s.added) && f.number !in s.deleted
  }

  /** The version that one builder makes of `base` and the edits. */
  ghost predicate Built(base: Levels, edits: seq<FileEdit>, r: Levels) {
    && |base| == |r| == NUM_LEVELS
    && forall l :: 0 <= l < NUM_LEVELS ==> LevelBuilt(base[l], ApplyAll(edits, l), r[l])
  }

  // ---------- the builder ----------

  class VersionBuilder {
    const base: Levels
    var levels: seq<LevelState>
    ghost var edits: seq<FileEdit>

    ghost predicate Valid()
      reads this
    {
      && |base| == |levels| == NUM_LEVELS
      && forall l :: 0 <= l < NUM_LEVELS ==> BySmallest(base[l]) && levels[l] == ApplyAll(edits, l)
    }

    constructor (base: Levels)
      requires |base| == NUM_LEVELS && forall l :: 0 <= l < NUM_LEVELS ==> BySmallest(base[l])
      ensures Valid() && edits == [] && this.base == base
    {
      this.base := base;
      levels := seq(NUM_LEVELS, _ => LevelState({}, []));
      edits := [];
    }

    method Apply(e: FileEdit)
      requires Valid()
      requires forall d :: d in e.deleted ==> d.0 < NUM_LEVELS
      requires forall i :: 0 <= i < |e.added| ==> e.added[i].0 < NUM_LEVELS
      modifies this
      ensures Valid() && edits == old(edits) + [e]
    {
      DeleteFiles(e);
      AddNewFiles(e);
      assert (edits + [e])[..|edits|] == edits;
      edits := edits + [e];
    }

    method DeleteFiles(e: FileEdit)
      requires |levels| == NUM_LEVELS && forall d :: d in e.deleted ==> d.0 < NUM_LEVELS
      modifies this`levels
      ensures |levels| == NUM_LEVELS
      ensures forall l :: 0 <= l < NUM_LEVELS ==>
        levels[l] == old(levels[l]).(deleted := old(levels[l]).deleted + set d | d in e.deleted && d.0 == l :: d.1)
    {
      ghost var before := levels;
      var del := e.deleted;
      while del != {}
        invariant del <= e.deleted && |levels| == NUM_LEVELS
        invariant forall l :: 0 <= l < NUM_LEVELS ==> levels[l].added == before[l].added
        invariant forall l :: 0 <= l < NUM_LEVELS ==>
          levels[l].deleted == before[l].deleted + set d | d in e.deleted - del && d.0 == l :: d.1
        decreases del
      {
        var d :| d in del;
        del := del - {d};
        levels := levels[d.0 := levels[d.0].(deleted := levels[d.0].deleted + {d.1})];
      }
      assert e.deleted - del == e.deleted;
    }

    method AddNewFiles(e: FileEdit)
      requires |levels| == NUM_LEVELS && forall l :: 0 <= l < NUM_LEVELS ==> BySmallest(levels[l].added)
      requires forall i :: 0 <= i < |e.added| ==> e.added[i].0 < NUM_LEVELS
      modifies this`levels
      ensures |levels| == NUM_LEVELS
      ensures forall l :: 0 <= l < NUM_LEVELS ==>
        BySmallest(levels[l].added) && levels[l] == AddFiles(old(levels[l]), l, e.added)
    {
      hide BySmallest;
      ghost var middle := levels;
      for i := 0 to |e.added|
        invariant |levels| == NUM_LEVELS && forall l :: 0 <= l < NUM_LEVELS ==> BySmallest(levels[l].added)
        invariant forall l :: 0 <= l < NUM_LEVELS ==> BySmallest(middle[l].added)
        invariant forall l :: 0 <= l < NUM_LEVELS ==>
          AddFiles(levels[l], l, e.added[i..]) == AddFiles(middle[l], l, e.added)
      {
        var (level, f) := e.added[i];
        var s := levels[level];
        levels := levels[level := LevelState(s.deleted - {f.number}, Insert(s.added, f))];
        assert e.added[i..][1..] == e.added[i + 1..];
      }
    }

    /** Merges base and added files of every level, leaving out deleted ones. */
    method SaveTo() returns (v: Levels)
      requires Valid()
      requires forall l, f, g :: 0 <= l < NUM_LEVELS && f in base[l] && g in levels[l].added ==> !SamePlace(f, g)
      ensures Built(base, edits, v)
    {
      v := [];
      for level := 0 to NUM_LEVELS
        invariant |v| == level
        invariant forall l :: 0 <= l < level ==> LevelBuilt(base[l], levels[l], v[l])
      {
        var files := SaveLevel(base[level], levels[level]);
        v := v + [files];
      }
    }
  }

  /** Position of the first file from `from` on that comes after `f`. */
  function UpperBound(files: seq<File>, from: nat, f: File): (r: nat)
    requires from <= |files| && BySmallest(files)
    ensures from <= r <= |files|
    ensures forall i :: from <= i < r ==> !FileLess(f, files[i])
    ensures forall i :: r <= i < |files| ==> FileLess(f, files[i])
    decreases |files| - from
  {
    if from == |files| || FileLess(f, files[from]) then from else UpperBound(files, from + 1, f)
  }

  function MaybeAddFile(files: seq<File>, f: File, deleted: set<nat>): seq<File> {
    if f.number in deleted then files else files + [f]
  }

  /** The merge has consumed `b` base files and `a` added files. */
  ghost predicate MergedSoFar(files: seq<File>, baseFiles: seq<File>, b: nat, s: LevelState, a: nat)
    requires b <= |baseFiles| && a <= |s.added|
  {
    && BySmallest(files)
    && (forall f :: f in files <==> (f in baseFiles[..b] || f in s.added[..a]) && f.number !in s.deleted)
    && (forall f :: f in files && b < |baseFiles| ==> FileLess(f, baseFiles[b]))
    && (forall f :: f in files && a < |s.added| ==> FileLess(f, s.added[a]))
  }

  lemma TakeBase(files: seq<File>, baseFiles: seq<File>, b: nat, s: LevelState, a: nat)
    requires b < |baseFiles| && a <= |s.added| && BySmallest(baseFiles)
    requires MergedSoFar(files, baseFiles, b, s, a)
    requires a < |s.added| ==> FileLess(baseFiles[b], s.added[a])
    ensures MergedSoFar(MaybeAddFile(files, baseFiles[b], s.deleted), baseFiles, b + 1, s, a)
  {
    assert baseFiles[..b + 1] == baseFiles[..b] + [baseFiles[b]];
  }

  lemma TakeAdded(files: seq<File>, baseFiles: seq<File>, b: nat, s: LevelState, a: nat)
    requires b <= |baseFiles| && a < |s.added| && BySmallest(s.added)
    requires MergedSoFar(files, baseFiles, b, s, a)
    requires b < |baseFiles| ==> FileLess(s.added[a], baseFiles[b])
    ensures MergedSoFar(MaybeAddFile(files, s.added[a], s.deleted), baseFiles, b, s, a + 1)
  {
    assert s.added[..a + 1] == s.added[..a] + [s.added[a]];
  }

  method SaveLevel(baseFiles: seq<File>, s: LevelState) returns (files: seq<File>)
    requires BySmallest(baseFiles) && BySmallest(s.added)
    requires forall f, g :: f in baseFiles && g in s.added ==> !SamePlace(f, g)
    ensures LevelBuilt(baseFiles, s, files)
  {
    files := [];
    var b := 0;
    for a := 0 to |s.added|
      invariant b <= |baseFiles| && MergedSoFar(files, baseFiles, b, s, a)
    {
      var bpos := UpperBound(baseFiles, b, s.added[a]);
      while b < bpos
        invariant b <= bpos && MergedSoFar(files, baseFiles, b, s, a)
      {
        PlacesAreTotal(baseFiles[b], s.added[a]);
        TakeBase(files, baseFiles, b, s, a);
        files := MaybeAddFile(files, baseFiles[b], s.deleted);
        b := b + 1;
      }
      TakeAdded(files, baseFiles, b, s, a);
      files := MaybeAddFile(files, s.added[a], s.deleted);
    }
    while b < |baseFiles|
      invariant b <= |baseFiles| && MergedSoFar(files, baseFiles, b, s, |s.added|)
    {
      TakeBase(files, baseFiles, b, s, |s.added|);
      files := MaybeAddFile(files, baseFiles[b], s.deleted);
      b := b + 1;
    }
    assert baseFiles[..b] == baseFiles && s.added[..|s.added|] == s.added;
  }

  // ---------- one builder or one version at a time ----------

  /** The premise of the builder: an edit adds only numbers that its level has never held. */
  ghost predicate NeverHeld(base: Levels, edits: seq<FileEdit>, e: FileEdit)
    requires |base| == NUM_LEVELS
  {
    && (forall i, l, g :: 0 <= i < |e.added| && l == e.added[i].0 && l < NUM_LEVELS ==>
          (g in base[l] || g in ApplyAll(edits, l).added ==> g.number != e.added[i].1.number))
    && (forall i, j :: 0 <= i < j < |e.added| && e.added[i].0 == e.added[j].0 ==>
          e.added[i].1.number != e.added[j].1.number)
    && (forall i :: 0 <= i < |e.added| ==> (e.added[i].0, e.added[i].1.number) !in e.deleted)
  }

  lemma {:induction false} AddFilesMembers(s: LevelState, l: nat, files: seq<(nat, File)>)
    requires BySmallest(s.added)
    requires forall i, g :: 0 <= i < |files| && files[i].0 == l && g in s.added ==> g.number != files[i].1.number
    requires forall i, j :: 0 <= i < j < |files| && files[i].0 == files[j].0 ==> files[i].1.number != files[j].1.number
    ensures forall f :: f in AddFiles(s, l, files).added <==> f in s.added || (l, f) in files
    ensures forall n :: n in AddFiles(s, l, files).deleted <==>
      n in s.deleted && forall i :: 0 <= i < |files| && files[i].0 == l ==> files[i].1.number != n
    decreases |files|
  {
    if files != [] {
      var (level, f) := files[0];
      var next := if level == l then LevelState(s.deleted - {f.number}, Insert(s.added, f)) else s;
      AddFilesMembers(next, l, files[1..]);
      assert files == [(level, f)] + files[1..];
    }
  }

  /** Applying the next edit to the version built so far is the same as giving it to the builder. */
  lemma BuiltStep(base: Levels, edits: seq<FileEdit>, v: Levels, e: FileEdit, after: Levels)
    requires Built(base, edits, v) && Applied(v, e, after) && NeverHeld(base, edits, e)
    ensures Built(base, edits + [e], after)
  {
    assert (edits + [e])[..|edits|] == edits;
    forall l | 0 <= l < NUM_LEVELS ensures LevelBuilt(base[l], ApplyAll(edits + [e], l), after[l]) {
      var s := ApplyAll(edits, l);
      var middle := s.(deleted := s.deleted + set d | d in e.deleted && d.0 == l :: d.1);
      AddFilesMembers(middle, l, e.added);
      forall f
        ensures f in after[l] <==> (f in base[l] || f in ApplyAll(edits + [e], l).added) &&
                                   f.number !in ApplyAll(edits + [e], l).deleted
      {
        assert f in v[l] <==> (f in base[l] || f in s.added) && f.number !in s.deleted;
        assert (l, f.number) in e.deleted <==> f.number in set d | d in e.deleted && d.0 == l :: d.1;
      }
    }
  }

  /** Replaying a whole manifest through one builder gives the last of the versions that were installed
      one by one. */
  lemma {:induction false} ReplayAgrees(base: Levels, edits: seq<FileEdit>, versions: seq<Levels>)
    requires |base| == NUM_LEVELS && DirectoryOrder(base)
    requires |versions| == |edits| + 1 && versions[0] == base
    requires forall i :: 0 <= i < |edits| ==>
      Applied(versions[i], edits[i], versions[i + 1]) && NeverHeld(base, edits[..i], edits[i])
    ensures Built(base, edits, versions[|edits|])
  {
    if edits != [] {
      var n := |edits| - 1;
      forall i | 0 <= i < n ensures edits[..n][..i] == edits[..i] {
      }
      ReplayAgrees(base, edits[..n], versions[..n + 1]);
      BuiltStep(base, edits[..n], versions[n], edits[n], versions[n + 1]);
      assert edits == edits[..n] + [edits[n]];
    }
  }

  /** The built version is unique, so recovery cannot come up with another one. */
  lemma BuiltOnce(base: Levels, edits: seq<FileEdit>, v: Levels, w: Levels)
    requires Built(base, edits, v) && Built(base, edits, w)
    ensures v == w
  {
    forall l | 0 <= l < NUM_LEVELS ensures v[l] == w[l] {
      OneOrder(v[l], w[l]);
    }
  }

  lemma {:induction false} OneOrder(v: seq<File>, w: seq<File>)
    requires BySmallest(v) && BySmallest(w) && forall f :: f in v <==> f in w
    ensures v == w
  {
    assert |v| > 0 ==> v[0] in w;
    assert |w| > 0 ==> w[0] in v;
    if v != [] {
      assert v[0] == w[0];
      forall f ensures f in v[1..] <==> f in w[1..] {
        assert f in v[1..] ==> f in v && FileLess(v[0], f);
        assert f in w[1..] ==> f in w && FileLess(w[0], f);
      }
      OneOrder(v[1..], w[1..]);
    }
  }
}
