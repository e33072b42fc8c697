/** `MergingIterator`: one cursor over the union of several sorted sources (table/merger.cc, lines 14-176). */
module Merger {
  import opened DbFormat
  import opened Version
  import opened Cursor

  datatype Direction = Forward | Reverse

  /** Every entry of the union belongs to one source, and the sources are disjoint. */
  ghost predicate Merges(sources: seq<seq<Entry>>, union: seq<Entry>) {
    && Sorted(union)
    && (forall i :: 0 <= i < |sources| ==> Sorted(sources[i]))
    && (forall i, e :: 0 <= i < |sources| && e in sources[i] ==> e in union)
    && (forall e :: e in union ==> exists i :: 0 <= i < |sources| && e in sources[i])
    && (forall i, j, e :: 0 <= i < j < |sources| && e in sources[i] ==> e !in sources[j])
  }

  /** How many entries of `es` come before place `m` of the union. */
  function Cut(es: seq<Entry>, union: seq<Entry>, m: nat): (r: nat)
    ensures r <= |es|
  {
    if m < |union| then FirstAtOrAfter(es, union[m].key) else |es|
  }

  /** Where a cursor is that looks at the last of the first `i` entries. */
  function Back(es: seq<Entry>, i: nat): nat {
    if i == 0 then |es| else i - 1
  }

  lemma OneKeyOneEntry(union: seq<Entry>, a: Entry, b: Entry)
    requires Sorted(union) && a in union && b in union && !Less(a.key, b.key) && !Less(b.key, a.key)
    ensures a == b
  {
    var i :| 0 <= i < |union| && union[i] == a;
    var j :| 0 <= j < |union| && union[j] == b;
  }

  lemma TwoEntriesTwoKeys(union: seq<Entry>, a: Entry, b: Entry)
    requires Sorted(union) && a in union && b in union && a != b
    ensures Less(a.key, b.key) || Less(b.key, a.key)
  {
    var i :| 0 <= i < |union| && union[i] == a;
    var j :| 0 <= j < |union| && union[j] == b;
  }

  /** Passing one entry of the union moves the cut of its source, and no other. */
  lemma CutStep(es: seq<Entry>, union: seq<Entry>, m: nat)
    requires Sorted(union) && Sorted(es) && m < |union| && forall e :: e in es ==> e in union
    ensures if union[m] in es
            then Cut(es, union, m) < |es| && es[Cut(es, union, m)] == union[m] && Cut(es, union, m + 1) == Cut(es, union, m) + 1
            else Cut(es, union, m + 1) == Cut(es, union, m)
  {
    hide FirstAtOrAfter;
    var i, n := Cut(es, union, m), Cut(es, union, m + 1);
    CutSplits(es, union, m);
    CutSplits(es, union, m + 1);
    assert union[..m + 1] == union[..m] + [union[m]];
    assert union[m..] == [union[m]] + union[m + 1..];
    NotTwice(union, m);
    NotTwice(union, m + 1);
    forall j | 0 <= j < |es| && es[j] != union[m] ensures j < i <==> j < n {
    }
    if union[m] in es {
      var j :| 0 <= j < |es| && es[j] == union[m];
      assert i <= j < n;
      assert forall k :: 0 <= k < j ==> Less(es[k].key, es[j].key);
      assert j + 1 < |es| ==> Less(es[j].key, es[j + 1].key);
    }
  }

  lemma NotTwice(union: seq<Entry>, m: nat)
    requires Sorted(union) && m <= |union|
    ensures forall e :: e in union[..m] ==> e !in union[m..]
  {
    forall i, j | 0 <= i < m && 0 <= j < |union| - m ensures union[..m][i] != union[m..][j] {
      assert Less(union[i].key, union[m + j].key);
    }
  }

  /** Entries before the cut are at places before `m`, the others are not. */
  lemma CutSplits(es: seq<Entry>, union: seq<Entry>, m: nat)
    requires Sorted(union) && Sorted(es) && m <= |union| && forall e :: e in es ==> e in union
    ensures forall j :: 0 <= j < Cut(es, union, m) ==> es[j] in union[..m]
    ensures forall j :: Cut(es, union, m) <= j < |es| ==> es[j] in union[m..]
  {
    var i := Cut(es, union, m);
    forall j | 0 <= j < |es| ensures if j < i then es[j] in union[..m] else es[j] in union[m..] {
      assert es[j] in union;
      var k :| 0 <= k < |union| && union[k] == es[j];
      if m < |union| {
        assert m < k ==> Less(union[m].key, union[k].key);
        assert k < m ==> Less(union[k].key, union[m].key);
        assert i < j ==> Less(es[i].key, es[j].key);
      }
      assert k < m ==> union[..m][k] == es[j];
      assert k >= m ==> union[m..][k - m] == es[j];
    }
  }

  lemma CutEnds(es: seq<Entry>, union: seq<Entry>)
    requires Sorted(union) && Sorted(es) && forall e :: e in es ==> e in union
    ensures Cut(es, union, 0) == 0 && Cut(es, union, |union|) == |es|
  {
    CutSplits(es, union, 0);
    assert union[..0] == [];
  }

  lemma CutSeek(es: seq<Entry>, union: seq<Entry>, target: InternalKey)
    requires Sorted(union) && Sorted(es) && forall e :: e in es ==> e in union
    ensures FirstAtOrAfter(es, target) == Cut(es, union, FirstAtOrAfter(union, target))
  {
    var m := FirstAtOrAfter(union, target);
    CutSplits(es, union, m);
    forall j | 0 <= j < |es| ensures j < Cut(es, union, m) <==> Less(es[j].key, target) {
      assert m < |union| && es[j] in union[m..] ==> es[j].key == union[m].key || Less(union[m].key, es[j].key);
    }
  }

  ghost function Sources(children: seq<EntryCursor>): seq<seq<Entry>> {
    seq(|children|, i requires 0 <= i < |children| => children[i].entries)
  }

  class MergingCursor {
    const children: seq<EntryCursor>
    var current: Option<nat>
    var direction: Direction
    /** The union of the children's entries, and the place of the cursor in it. */
    ghost const union: seq<Entry>
    ghost var place: int

    ghost predicate Ok()
      reads this, children
    {
      && (forall i, j :: 0 <= i < j < |children| ==> children[i] != children[j])
      && (forall i :: 0 <= i < |children| ==> children[i].Ok())
      && (current.Some? ==> current.value < |children| && children[current.value].Valid())
    }

    /** All children stand at the cut of place `m`. */
    ghost predicate AllAt(m: nat)
      reads this, children
    {
      forall i :: 0 <= i < |children| ==> children[i].pos == Cut(children[i].entries, union, m)
    }

    ghost predicate AllBack(m: nat)
      reads this, children
    {
      forall i :: 0 <= i < |children| ==>
        children[i].pos == Back(children[i].entries, Cut(children[i].entries, union, m))
    }

    /** The cursor stands at its place of the union. */
    ghost predicate Tracks()
      reads this, children
    {
      && Ok()
      && Merges(Sources(children), union)
      && (current.Some? <==> 0 <= place < |union|)
      && (current.Some? ==>
            && children[current.value].entries[children[current.value].pos] == union[place]
            && if direction.Forward? then AllAt(place) else AllBack(place + 1))
    }

    constructor (children: seq<EntryCursor>, ghost union: seq<Entry>)
      requires forall i, j :: 0 <= i < j < |children| ==> children[i] != children[j]
      requires forall i :: 0 <= i < |children| ==> children[i].Ok()
      ensures Ok() && this.children == children && this.union == union && current == None
    {
      this.children := children;
      this.union := union;
      current, direction, place := None, Forward, -1;
    }

    method FindSmallest()
      requires Ok()
      modifies this
      ensures Ok() && direction == old(direction) && place == old(place)
      ensures current.None? ==> forall i :: 0 <= i < |children| ==> !children[i].Valid()
      ensures current.Some? ==> forall i :: 0 <= i < |children| && children[i].Valid() ==>
        !Less(children[i].Key(), children[current.value].Key())
    {
      var smallest: Option<nat> := None;
      for i := 0 to |children|
        invariant smallest.Some? ==> smallest.value < i && children[smallest.value].Valid()
        invariant smallest.None? ==> forall j :: 0 <= j < i ==> !children[j].Valid()
        invariant smallest.Some? ==> forall j :: 0 <= j < i && children[j].Valid() ==>
          !Less(children[j].Key(), children[smallest.value].Key())
      {
        var child := children[i];
        if child.Valid() {
          if smallest.None? || Less(child.Key(), children[smallest.value].Key()) {
            smallest := Some(i);
          }
        }
      }
      current := smallest;
    }

    method FindLargest()
      requires Ok()
      modifies this
      ensures Ok() && direction == old(direction) && place == old(place)
      ensures current.None? ==> forall i :: 0 <= i < |children| ==> !children[i].Valid()
      ensures current.Some? ==> forall i :: 0 <= i < |children| && children[i].Valid() ==>
        !Less(children[current.value].Key(), children[i].Key())
    {
      var largest: Option<nat> := None;
      for i := |children| downto 0
        invariant largest.Some? ==> i <= largest.value < |children| && children[largest.value].Valid()
        invariant largest.None? ==> forall j :: i <= j < |children| ==> !children[j].Valid()
        invariant largest.Some? ==> forall j :: i <= j < |children| && children[j].Valid() ==>
          !Less(children[largest.value].Key(), children[j].Key())
      {
        var child := children[i];
        if child.Valid() {
          if largest.None? || Less(children[largest.value].Key(), child.Key()) {
            largest := Some(i);
          }
        }
      }
      current := largest;
    }

    /** The cursor stands at place `m` once the smallest of the children at the cut of `m` is chosen. */
    lemma SmallestTracks(m: nat)
      requires Ok() && Merges(Sources(children), union) && m <= |union| && AllAt(m)
      requires current.None? ==> forall i :: 0 <= i < |children| ==> !children[i].Valid()
      requires current.Some? ==> forall i :: 0 <= i < |children| && children[i].Valid() ==>
        !Less(children[i].Key(), children[current.value].Key())
      requires direction.Forward? && place == m
      ensures Tracks()
    {
      hide Merges, Cut, Sources, Sorted, Less;
      SmallestAt(m);
    }

    /** The smallest of the children at the cut of `m` is at place `m`. */
    lemma SmallestAt(m: nat)
      requires Ok() && Merges(Sources(children), union) && m <= |union| && AllAt(m)
      requires current.None? ==> forall i :: 0 <= i < |children| ==> !children[i].Valid()
      requires current.Some? ==> forall i :: 0 <= i < |children| && children[i].Valid() ==>
        !Less(children[i].Key(), children[current.value].Key())
      ensures current.Some? <==> m < |union|
      ensures current.Some? ==> children[current.value].entries[children[current.value].pos] == union[m]
    {
      var s := Sources(children);
      if m < |union| {
        assert union[m] in union;
        var o :| 0 <= o < |s| && union[m] in s[o];
        CutStep(children[o].entries, union, m);
        assert children[o].Valid();
        var c := children[current.value];
        assert s[current.value] == c.entries;
        CutSplits(c.entries, union, m);
        var e := c.entries[c.pos];
        assert e in union[m..];
        OneKeyOneEntry(union, e, union[m]);
      }
    }

    lemma LargestTracks(m: nat)
      requires Ok() && Merges(Sources(children), union) && m <= |union| && AllBack(m)
      requires current.None? ==> forall i :: 0 <= i < |children| ==> !children[i].Valid()
      requires current.Some? ==> forall i :: 0 <= i < |children| && children[i].Valid() ==>
        !Less(children[current.value].Key(), children[i].Key())
      requires direction.Reverse? && place == m - 1
      ensures Tracks()
    {
      hide Merges, Cut, Back, Sources, Sorted, Less;
      LargestAt(m);
    }

    /** The largest of the children before the cut of `m` is at place `m - 1`. */
    lemma LargestAt(m: nat)
      requires Ok() && Merges(Sources(children), union) && m <= |union| && AllBack(m)
      requires current.None? ==> forall i :: 0 <= i < |children| ==> !children[i].Valid()
      requires current.Some? ==> forall i :: 0 <= i < |children| && children[i].Valid() ==>
        !Less(children[current.value].Key(), children[i].Key())
      ensures current.Some? <==> m > 0
      ensures current.Some? ==> children[current.value].entries[children[current.value].pos] == union[m - 1]
    {
      var s := Sources(children);
      if m > 0 {
        assert union[m - 1] in union;
        var o :| 0 <= o < |s| && union[m - 1] in s[o];
        CutStep(children[o].entries, union, m - 1);
        assert children[o].Valid();
        var c := children[current.value];
        assert s[current.value] == c.entries;
        CutSplits(c.entries, union, m);
        var e := c.entries[c.pos];
        assert e in union[..m];
        OneKeyOneEntry(union, e, union[m - 1]);
      } else if current.Some? {
        var c := children[current.value];
        assert s[current.value] == c.entries;
        CutEnds(c.entries, union);
      }
    }

    method SeekToFirst()
      requires Ok()
      modifies this, children
      ensures Ok() && (Merges(Sources(children), union) ==> Tracks() && place == 0)
    {
      for i := 0 to |children|
        invariant ChildrenOk()
        invariant forall j :: 0 <= j < i ==> children[j].pos == 0
      {
        children[i].SeekToFirst();
      }
      current := None;
      FindSmallest();
      direction := Forward;
      place := 0;
      if Merges(Sources(children), union) {
        forall i | 0 <= i < |children| ensures children[i].pos == Cut(children[i].entries, union, 0) {
          assert Sources(children)[i] == children[i].entries;
          CutEnds(children[i].entries, union);
        }
        SmallestTracks(0);
      }
    }

    lemma BackAtEnd()
      requires Merges(Sources(children), union)
      requires forall j :: 0 <= j < |children| ==>
        children[j].pos == Back(children[j].entries, |children[j].entries|)
      ensures AllBack(|union|)
    {
      hide Back;
      forall i | 0 <= i < |children| ensures Cut(children[i].entries, union, |union|) == |children[i].entries| {
        assert Sources(children)[i] == children[i].entries;
        CutEnds(children[i].entries, union);
      }
    }

    method SeekToLast()
      requires Ok()
      modifies this, children
      ensures Ok() && (Merges(Sources(children), union) ==> Tracks() && place == |union| - 1)
    {
      hide Merges, Cut, Sources, Sorted, Less, MergingCursor.Tracks;
      for i := 0 to |children|
        invariant ChildrenOk()
        invariant forall j :: 0 <= j < i ==> children[j].pos == Back(children[j].entries, |children[j].entries|)
      {
        children[i].SeekToLast();
      }
      current := None;
      FindLargest();
      direction := Reverse;
      place := |union| - 1;
      if Merges(Sources(children), union) {
        BackAtEnd();
        LargestTracks(|union|);
      }
    }

    lemma SoughtAt(target: InternalKey)
      requires Merges(Sources(children), union)
      requires forall j :: 0 <= j < |children| ==> children[j].pos == FirstAtOrAfter(children[j].entries, target)
      ensures AllAt(FirstAtOrAfter(union, target))
    {
      hide FirstAtOrAfter, Cut, Less;
      forall i | 0 <= i < |children|
        ensures children[i].pos == Cut(children[i].entries, union, FirstAtOrAfter(union, target))
      {
        assert Sources(children)[i] == children[i].entries;
        CutSeek(children[i].entries, union, target);
      }
    }

    method Seek(target: InternalKey)
      requires Ok()
      modifies this, children
      ensures Ok() && (Merges(Sources(children), union) ==> Tracks() && place == FirstAtOrAfter(union, target))
    {
      hide Merges, Cut, Sources, Sorted, Less, FirstAtOrAfter, MergingCursor.Tracks;
      for i := 0 to |children|
        invariant ChildrenOk()
        invariant forall j :: 0 <= j < i ==> children[j].pos == FirstAtOrAfter(children[j].entries, target)
      {
        children[i].Seek(target);
      }
      current := None;
      FindSmallest();
      direction := Forward;
      place := FirstAtOrAfter(union, target);
      if Merges(Sources(children), union) {
        SoughtAt(target);
        SmallestTracks(place);
      }
    }

    ghost predicate ChildrenOk()
      reads this, children
    {
      && (forall i, j :: 0 <= i < j < |children| ==> children[i] != children[j])
      && (forall i :: 0 <= i < |children| ==> children[i].Ok())
    }

    /** In either direction the current child stands at the cut of the current place. */
    lemma CurrentAtCut()
      requires Tracks() && current.Some?
      ensures Merges(Sources(children), union) && 0 <= place < |union|
      ensures var c := children[current.value];
        && c.entries[c.pos] == union[place] && union[place] in c.entries && c.Key() == union[place].key
        && c.pos == Cut(c.entries, union, place) && Cut(c.entries, union, place + 1) == c.pos + 1
    {
      var c := children[current.value];
      assert Sources(children)[current.value] == c.entries;
      CutStep(c.entries, union, place);
    }

    /** No other child has an entry with the current key. */
    lemma OtherChild(c: nat, i: nat, m: nat)
      requires Merges(Sources(children), union) && c < |children| && i < |children| && i != c
      requires m < |union| && union[m] in children[c].entries
      ensures forall e :: e in children[i].entries ==> Less(e.key, union[m].key) || Less(union[m].key, e.key)
      ensures Cut(children[i].entries, union, m + 1) == Cut(children[i].entries, union, m)
    {
      assert Sources(children)[i] == children[i].entries && Sources(children)[c] == children[c].entries;
      forall e | e in children[i].entries ensures Less(e.key, union[m].key) || Less(union[m].key, e.key) {
        assert e != union[m];
        TwoEntriesTwoKeys(union, e, union[m]);
      }
      CutStep(children[i].entries, union, m);
    }

    /** The other children stand where they must when the cursor has moved on from its place. */
    lemma OthersAhead()
      requires Tracks() && current.Some? && direction.Forward?
      ensures forall i :: 0 <= i < |children| && i != current.value ==>
        children[i].pos == Cut(children[i].entries, union, place + 1)
    {
      hide Merges, Cut;
      CurrentAtCut();
      forall i | 0 <= i < |children| && i != current.value
        ensures children[i].pos == Cut(children[i].entries, union, place + 1)
      {
        OtherChild(current.value, i, place);
      }
    }

    lemma OthersBehind()
      requires Tracks() && current.Some? && direction.Reverse?
      ensures forall i :: 0 <= i < |children| && i != current.value ==>
        children[i].pos == Back(children[i].entries, Cut(children[i].entries, union, place))
    {
      hide Merges, Cut;
      CurrentAtCut();
      forall i | 0 <= i < |children| && i != current.value
        ensures children[i].pos == Back(children[i].entries, Cut(children[i].entries, union, place))
      {
        OtherChild(current.value, i, place);
      }
    }

    /** Standing on an entry of the union with all children in position. */
    lemma TracksAt()
      requires Ok() && Merges(Sources(children), union) && current.Some? && 0 <= place < |union|
      requires children[current.value].entries[children[current.value].pos] == union[place]
      requires if direction.Forward? then AllAt(place) else AllBack(place + 1)
      ensures Tracks()
    {
    }

    /** Positions a child at the first entry after `key`. */
    method MoveAfter(child: EntryCursor, key: InternalKey)
      requires child.Ok()
      modifies child
      ensures child.Ok()
      ensures (forall e :: e in child.entries ==> Less(e.key, key) || Less(key, e.key)) ==>
        child.pos == FirstAtOrAfter(child.entries, key)
    {
      hide FirstAtOrAfter, Less, Sorted;
      child.Seek(key);
      if child.Valid() && !Less(key, child.Key()) && !Less(child.Key(), key) {
        assert child.entries[child.pos] in child.entries;
        child.Next();
      }
    }

    /** Positions a child at the last entry before `key`. */
    method MoveBefore(child: EntryCursor, key: InternalKey)
      requires child.Ok()
      modifies child
      ensures child.Ok() && child.pos == Back(child.entries, FirstAtOrAfter(child.entries, key))
    {
      child.Seek(key);
      if child.Valid() {
        child.Prev();
      } else {
        child.SeekToLast();
      }
    }

    /** Positions the other children after the current key, if they are not there already. */
    method TurnForward()
      requires Ok() && current.Some?
      modifies this, children
      ensures Ok() && current == old(current) && place == old(place) && direction.Forward?
      ensures old(Tracks()) ==> Tracks()
    {
      hide Merges, Cut, Sources, Sorted, Less, FirstAtOrAfter, MergingCursor.Tracks;
      ghost var good := Tracks();
      ghost var c := current.value;
      if good {
        CurrentAtCut();
      }
      if direction != Forward {
        var key := children[current.value].Key();
        for i := 0 to |children|
          invariant Ok() && current == old(current) && place == old(place)
          invariant children[c].pos == old(children[c].pos)
          invariant good ==> forall j :: 0 <= j < i ==> children[j].pos == Cut(children[j].entries, union, place)
        {
          if i != current.value {
            if good {
              OtherChild(c, i, place);
              AtOrAfterIsCut(children[i].entries, union, place);
            }
            MoveAfter(children[i], key);
          }
        }
        direction := Forward;
        if good {
          TracksAt();
        }
      }
    }

    /** Positions the other children before the current key, if they are not there already. */
    method TurnBackward()
      requires Ok() && current.Some?
      modifies this, children
      ensures Ok() && current == old(current) && place == old(place) && direction.Reverse?
      ensures old(Tracks()) ==> Tracks()
    {
      hide Merges, Cut, Back, Sources, Sorted, Less, FirstAtOrAfter, MergingCursor.Tracks;
      ghost var good := Tracks();
      ghost var c := current.value;
      if good {
        CurrentAtCut();
      }
      if direction != Reverse {
        var key := children[current.value].Key();
        for i := 0 to |children|
          invariant Ok() && current == old(current) && place == old(place)
          invariant children[c].pos == old(children[c].pos)
          invariant good ==> forall j :: 0 <= j < i ==>
            children[j].pos == Back(children[j].entries, Cut(children[j].entries, union, place + 1))
        {
          if i != current.value {
            if good {
              OtherChild(c, i, place);
              AtOrAfterIsCut(children[i].entries, union, place);
            }
            MoveBefore(children[i], key);
          } else if good {
            BackIs(children[c].entries, children[c].pos);
          }
        }
        direction := Reverse;
        if good {
          TracksAt();
        }
      }
    }

    method Next()
      requires Ok() && current.Some?
      modifies this, children
      ensures Ok() && (old(Tracks()) ==> Tracks() && place == old(place) + 1)
    {
      hide Merges, Cut, Sources, Sorted, Less, MergingCursor.Tracks;
      ghost var good := Tracks();
      TurnForward();
      if good {
        CurrentAtCut();
        OthersAhead();
      }
      children[current.value].Next();
      current := None;
      FindSmallest();
      place := place + 1;
      if good {
        SmallestTracks(place);
      }
    }

    method Prev()
      requires Ok() && current.Some?
      modifies this, children
      ensures Ok() && (old(Tracks()) ==> Tracks() && place == old(place) - 1)
    {
      hide Merges, Cut, Sources, Sorted, Less, MergingCursor.Tracks;
      ghost var good := Tracks();
      TurnBackward();
      if good {
        CurrentAtCut();
        OthersBehind();
      }
      children[current.value].Prev();
      current := None;
      FindLargest();
      place := place - 1;
      if good {
        LargestTracks(place + 1);
      }
    }

    method Key() returns (k: InternalKey)
      requires Ok() && current.Some?
      ensures Tracks() ==> k == union[place].key
    {
      k := children[current.value].Key();
    }

    method Value() returns (v: Val)
      requires Ok() && current.Some?
      ensures Tracks() ==> v == union[place].val
    {
      v := children[current.value].Value();
    }
  }

  lemma BackIs(es: seq<Entry>, m: nat)
    requires m < |es|
    ensures Back(es, m + 1) == m
  {
  }

  lemma AtOrAfterIsCut(es: seq<Entry>, union: seq<Entry>, m: nat)
    requires m < |union|
    ensures FirstAtOrAfter(es, union[m].key) == Cut(es, union, m)
  {
  }
}
