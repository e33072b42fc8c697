/** `DBIter`: the user's cursor over the live keys of a snapshot, made from a cursor over all entries
    (db/db_iter.cc, lines 141-299).  Read sampling and corrupted keys are not part of this model. */
module DbIter {
  import opened DbFormat
  import opened Version
  import opened Storage
  import opened Cursor

  // ---------- the specification: the live entries of a snapshot ----------

  predicate Visible(e: Entry, s: nat) {
    e.key.sn <= s
  }

  /** Entry `i` is what the snapshot shows for its user key. */
  predicate Yields(es: seq<Entry>, s: nat, i: int) {
    && 0 <= i < |es|
    && Visible(es[i], s)
    && es[i].key.kind.Value?
    && forall j :: 0 <= j < i && es[j].key.user == es[i].key.user ==> !Visible(es[j], s)
  }

  function LiveUpTo(es: seq<Entry>, s: nat, n: nat): seq<Entry>
    requires n <= |es|
  {
    if n == 0 then [] else LiveUpTo(es, s, n - 1) + if Yields(es, s, n - 1) then [es[n - 1]] else []
  }

  /** The live keys with their values, in order. */
  function Live(es: seq<Entry>, s: nat): seq<Entry> {
    LiveUpTo(es, s, |es|)
  }

  lemma {:induction false} LivePrefix(es: seq<Entry>, s: nat, m: nat, n: nat)
    requires m <= n <= |es|
    ensures LiveUpTo(es, s, m) <= LiveUpTo(es, s, n)
    decreases n
  {
    if m < n {
      LivePrefix(es, s, m, n - 1);
    }
  }

  /** A yielding entry is the live entry whose place is the number of live entries before it. */
  lemma LiveAt(es: seq<Entry>, s: nat, i: nat)
    requires Yields(es, s, i)
    ensures |LiveUpTo(es, s, i)| < |Live(es, s)| && Live(es, s)[|LiveUpTo(es, s, i)|] == es[i]
  {
    LivePrefix(es, s, i + 1, |es|);
  }

  lemma {:induction false} LiveGap(es: seq<Entry>, s: nat, m: nat, n: nat)
    requires m <= n <= |es| && forall i :: m <= i < n ==> !Yields(es, s, i)
    ensures LiveUpTo(es, s, m) == LiveUpTo(es, s, n)
    decreases n
  {
    if m < n {
      LiveGap(es, s, m, n - 1);
    }
  }

  lemma {:induction false} LiveIsYielded(es: seq<Entry>, s: nat, n: nat, k: nat) returns (i: nat)
    requires n <= |es| && k < |LiveUpTo(es, s, n)|
    ensures i < n && Yields(es, s, i) && |LiveUpTo(es, s, i)| == k && LiveUpTo(es, s, n)[k] == es[i]
  {
    if Yields(es, s, n - 1) && k == |LiveUpTo(es, s, n - 1)| {
      i := n - 1;
    } else {
      i := LiveIsYielded(es, s, n - 1, k);
    }
  }

  /** Every user key is live at most once, and they ascend. */
  lemma LiveAscends(es: seq<Entry>, s: nat, k: nat, l: nat)
    requires Sorted(es) && k < l < |Live(es, s)|
    ensures Live(es, s)[k].key.user < Live(es, s)[l].key.user
  {
    var i := LiveIsYielded(es, s, |es|, k);
    var j := LiveIsYielded(es, s, |es|, l);
    if j <= i {
      LivePrefix(es, s, j, i);
    }
    assert Less(es[i].key, es[j].key);
  }

  /** A key is live with a value exactly if a lookup at the snapshot finds the value. */
  lemma LiveIsSeek(es: seq<Entry>, s: nat, user: UserKey, e: Entry)
    requires Sorted(es)
    ensures (e in Live(es, s) && e.key.user == user) <==>
      (SeekEntry(es, LookupKey(user, s)) == Some(e) && e.key.kind.Value?)
  {
    var i := FirstAtOrAfter(es, LookupKey(user, s));
    if e in Live(es, s) && e.key.user == user {
      var k :| 0 <= k < |Live(es, s)| && Live(es, s)[k] == e;
      var j := LiveIsYielded(es, s, |es|, k);
      assert i <= j;
      assert i < j ==> Less(es[i].key, es[j].key) && Visible(es[i], s);
    }
    if SeekEntry(es, LookupKey(user, s)) == Some(e) && e.key.kind.Value? {
      assert Yields(es, s, i);
      LiveAt(es, s, i);
    }
  }

  /** What a full scan shows is what the history shows, key by key: `es` merges the entries of the
      version, which stands for the first `p` writes, and of the memtables. */
  lemma ScanIsHistory(es: seq<Entry>, levels: Levels, h: seq<Entry>, p: nat, s: nat, user: UserKey, v: Val)
    requires Sorted(es) && History(h) && p <= |h| && Stores(levels, h[..p], s)
    requires forall e :: e in es <==> Has(levels, e) || (Recorded(h, e) && e.key.sn > p)
    ensures (exists k :: 0 <= k < |Live(es, s)| && Live(es, s)[k].key.user == user && Live(es, s)[k].val == v) <==>
      Lookup(h, user, s) == Some(v)
  {
    hide Ordered, Live;
    assert Agree(levels, h[..p], user, s);
    var r := SeekEntry(es, LookupKey(user, s));
    SeekFinds(es, user, s);
    SeekIsLookup(es, levels, h, p, s, user);
    if r.Some? {
      LiveIsSeek(es, s, user, r.value);
    }
    forall k | 0 <= k < |Live(es, s)| && Live(es, s)[k].key.user == user
      ensures r == Some(Live(es, s)[k]) && r.value.key.kind.Value?
    {
      LiveIsSeek(es, s, user, Live(es, s)[k]);
    }
  }

  /** The newest visible write is in `es`, or nothing visible is and it is a deletion. */
  lemma NewestInScan(es: seq<Entry>, levels: Levels, h: seq<Entry>, p: nat, s: nat, user: UserKey, n: nat)
    requires History(h) && p <= |h| && Agree(levels, h[..p], user, s) && Newest(h, user, s, n)
    requires forall e :: e in es <==> Has(levels, e) || (Recorded(h, e) && e.key.sn > p)
    ensures h[n] in es || (h[n].key.kind.Deletion? && forall e :: e in es ==> !Matches(e, user, s))
  {
    hide Has;
    if n >= p {
      assert Recorded(h, h[n]);
    } else {
      assert Newest(h[..p], user, s, n);
      if !Has(levels, h[n]) {
        forall m | Newest(h[..p], user, s, m) ensures m == n {
        }
        forall e | e in es ensures !Matches(e, user, s) {
          if !Has(levels, e) {
            assert h[e.key.sn - 1] == e;
          }
        }
      }
    }
  }

  lemma SeekIsLookup(es: seq<Entry>, levels: Levels, h: seq<Entry>, p: nat, s: nat, user: UserKey)
    requires Sorted(es) && History(h) && p <= |h| && Agree(levels, h[..p], user, s)
    requires forall e :: Has(levels, e) ==> Recorded(h[..p], e)
    requires forall e :: e in es <==> Has(levels, e) || (Recorded(h, e) && e.key.sn > p)
    ensures var r := SeekEntry(es, LookupKey(user, s));
      Lookup(h, user, s) == if r.Some? then Shown(r.value) else None
  {
    hide SeekEntry, Sorted, Has, Agree, Lookup;
    SeekFinds(es, user, s);
    forall e | e in es ensures Recorded(h, e) {
    }
    var n := NewestExists(h, user, s);
    if n < 0 {
      LookupFindsNothing(h, user, s);
    } else {
      LookupIsNewest(h, user, s, n);
      NewestInScan(es, levels, h, p, s, user, n);
    }
  }

  // ---------- scanning forward ----------

  /** What a forward scan looks for: a live entry, past `skip` if there is something to skip. */
  predicate Wanted(es: seq<Entry>, s: nat, skipping: bool, skip: UserKey, i: int) {
    Yields(es, s, i) && (skipping ==> es[i].key.user > skip)
  }

  ghost predicate NoneWanted(es: seq<Entry>, s: nat, p: nat, n: nat, skipping: bool, skip: UserKey) {
    forall i :: p <= i < n ==> !Wanted(es, s, skipping, skip, i)
  }

  /** `i` is the first wanted index from `p` on, or the end. */
  ghost predicate FirstWanted(es: seq<Entry>, s: nat, p: nat, skipping: bool, skip: UserKey, i: nat) {
    && p <= i <= |es|
    && NoneWanted(es, s, p, i, skipping, skip)
    && (i < |es| ==> Wanted(es, s, skipping, skip, i))
  }

  /** Keys with a visible entry behind the cursor are being hidden. */
  ghost predicate Hides(es: seq<Entry>, s: nat, i: nat, hiding: bool, upTo: UserKey) {
    forall j, k :: 0 <= j < i <= k < |es| && es[j].key.user == es[k].key.user && Visible(es[j], s) ==>
      hiding && es[k].key.user <= upTo
  }

  /** What is being hidden is not wanted, and no visible entry lies below it. */
  ghost predicate Covers(es: seq<Entry>, s: nat, i: nat, hiding: bool, upTo: UserKey, skipping: bool, skip: UserKey) {
    && (skipping ==> hiding && skip <= upTo)
    && (forall k :: i <= k < |es| && hiding && es[k].key.user <= upTo ==> !Wanted(es, s, skipping, skip, k))
    && (forall k :: i <= k < |es| && hiding && Visible(es[k], s) ==> upTo <= es[k].key.user)
  }

  lemma HideKey(es: seq<Entry>, s: nat, i: nat, hiding: bool, upTo: UserKey, skipping: bool, skip: UserKey)
    requires Sorted(es) && i < |es| && Visible(es[i], s)
    requires Hides(es, s, i, hiding, upTo) && Covers(es, s, i, hiding, upTo, skipping, skip)
    requires es[i].key.kind.Deletion?
    ensures Hides(es, s, i + 1, true, es[i].key.user)
    ensures Covers(es, s, i + 1, true, es[i].key.user, skipping, skip)
    ensures !Wanted(es, s, skipping, skip, i)
  {
    forall k | i < k < |es| ensures es[i].key.user <= es[k].key.user {
      assert Less(es[i].key, es[k].key);
    }
    forall j | 0 <= j < i ensures es[j].key.user <= es[i].key.user {
      assert Less(es[j].key, es[i].key);
    }
  }

  lemma PassEntry(es: seq<Entry>, s: nat, i: nat, hiding: bool, upTo: UserKey, skipping: bool, skip: UserKey)
    requires Sorted(es) && i < |es|
    requires !Visible(es[i], s) || (hiding && es[i].key.user <= upTo)
    requires Hides(es, s, i, hiding, upTo) && Covers(es, s, i, hiding, upTo, skipping, skip)
    ensures Hides(es, s, i + 1, hiding, upTo) && Covers(es, s, i + 1, hiding, upTo, skipping, skip)
    ensures !Wanted(es, s, skipping, skip, i)
  {
  }

  lemma AcceptEntry(es: seq<Entry>, s: nat, i: nat, hiding: bool, upTo: UserKey, skipping: bool, skip: UserKey)
    requires Sorted(es) && i < |es| && Visible(es[i], s) && es[i].key.kind.Value?
    requires !(hiding && es[i].key.user <= upTo)
    requires Hides(es, s, i, hiding, upTo) && Covers(es, s, i, hiding, upTo, skipping, skip)
    ensures Wanted(es, s, skipping, skip, i)
  {
  }

  lemma WantedGap(es: seq<Entry>, s: nat, m: nat, n: nat)
    requires m <= n <= |es| && NoneWanted(es, s, m, n, false, 0.0)
    ensures LiveUpTo(es, s, m) == LiveUpTo(es, s, n)
  {
    forall i | m <= i < n ensures !Yields(es, s, i) {
      assert !Wanted(es, s, false, 0.0, i);
    }
    LiveGap(es, s, m, n);
  }

  lemma SeekStart(es: seq<Entry>, s: nat, target: UserKey, p: nat)
    requires Sorted(es) && p == FirstAtOrAfter(es, LookupKey(target, s))
    ensures Hides(es, s, p, false, 0.0)
    ensures forall i :: 0 <= i < p && Yields(es, s, i) ==> es[i].key.user < target
    ensures forall i :: p <= i < |es| ==> es[i].key.user >= target
  {
    forall i | p <= i < |es| ensures es[i].key.user >= target {
      assert i == p || Less(es[p].key, es[i].key);
    }
  }

  /** The live entries before the first wanted one are those before the start. */
  lemma SeekPlace(es: seq<Entry>, s: nat, target: UserKey, p: nat, i: nat)
    requires Sorted(es) && p <= i <= |es| && NoneWanted(es, s, p, i, false, 0.0)
    requires forall j :: 0 <= j < p && Yields(es, s, j) ==> es[j].key.user < target
    requires forall j :: p <= j < |es| ==> es[j].key.user >= target
    ensures var place := |LiveUpTo(es, s, i)|;
      && place <= |Live(es, s)|
      && (forall k :: 0 <= k < place ==> Live(es, s)[k].key.user < target)
      && (forall k :: place <= k < |Live(es, s)| ==> Live(es, s)[k].key.user >= target)
  {
    WantedGap(es, s, p, i);
    LivePrefix(es, s, i, |es|);
    forall k | 0 <= k < |Live(es, s)|
      ensures if k < |LiveUpTo(es, s, i)| then Live(es, s)[k].key.user < target else Live(es, s)[k].key.user >= target
    {
      var j := LiveIsYielded(es, s, |es|, k);
      if k < |LiveUpTo(es, s, p)| {
        if p <= j {
          LivePrefix(es, s, p, j);
        }
      } else if j < p {
        LivePrefix(es, s, j + 1, p);
      }
    }
  }

  lemma NextStart(es: seq<Entry>, s: nat, p: nat, at: nat)
    requires Sorted(es) && Yields(es, s, at) && p <= at
    requires forall i :: p <= i < at ==> !Visible(es[i], s)
    requires forall i :: 0 <= i < p ==> es[i].key.user <= es[at].key.user
    ensures Hides(es, s, p, true, es[at].key.user)
    ensures Covers(es, s, p, true, es[at].key.user, true, es[at].key.user)
  {
    forall k | at < k < |es| ensures es[at].key.user <= es[k].key.user {
      assert Less(es[at].key, es[k].key);
    }
  }

  /** The first live entry past the current key is the next live entry. */
  lemma NextPlace(es: seq<Entry>, s: nat, p: nat, at: nat, i: nat)
    requires Sorted(es) && Yields(es, s, at) && p <= at
    requires FirstWanted(es, s, p, true, es[at].key.user, i)
    ensures |LiveUpTo(es, s, i)| == |LiveUpTo(es, s, at)| + 1
  {
    forall j | 0 <= j < |es| && j != at ensures if j < at then es[j].key.user <= es[at].key.user else es[j].key.user >= es[at].key.user {
      assert if j < at then Less(es[j].key, es[at].key) else Less(es[at].key, es[j].key);
    }
    assert at < i;
    forall j | at < j < i ensures !Yields(es, s, j) {
      assert !Wanted(es, s, true, es[at].key.user, j);
    }
    LiveGap(es, s, at + 1, i);
  }

  // ---------- scanning backward ----------

  /** Where a cursor moving backward stands: everything from here on has been passed. */
  function Edge(es: seq<Entry>, pos: nat): nat {
    if pos < |es| then pos + 1 else 0
  }

  /** The cursor is before all entries of the current key.  It may be further back than that, but has passed
      no visible entry on the way. */
  ghost predicate JustBefore(es: seq<Entry>, s: nat, pos: nat, at: nat)
    requires at < |es|
  {
    && Edge(es, pos) <= at
    && (forall i :: Edge(es, pos) <= i < at ==> !Visible(es[i], s))
    && (forall i :: 0 <= i < Edge(es, pos) ==> es[i].key.user < es[at].key.user)
  }

  ghost predicate NoneYields(es: seq<Entry>, s: nat, m: nat, n: nat) {
    forall i :: m <= i < n ==> !Yields(es, s, i)
  }

  /** The last live entry seen so far when scanning down from `end` to `q`: index `c`, unless `c == end`. */
  ghost predicate Seen(es: seq<Entry>, s: nat, q: nat, end: nat, c: nat, kind: ValueType, key: UserKey, val: Val)
    requires q <= end <= |es|
  {
    match kind
    case Deletion => NoneYields(es, s, q, end)
    case Value =>
      && q <= c < end
      && Visible(es[c], s) && es[c].key.kind.Value?
      && key == es[c].key.user && val == es[c].val
      && (forall i :: q <= i < c ==> !Visible(es[i], s))
      && NoneYields(es, s, c + 1, end)
  }

  lemma SeesNothing(es: seq<Entry>, s: nat, q: nat, end: nat, c: nat, key: UserKey, val: Val)
    requires q <= end <= |es| && NoneYields(es, s, q, end)
    ensures Seen(es, s, q, end, c, Deletion, key, val)
  {
  }

  lemma NoLive(es: seq<Entry>, s: nat, end: nat, c: nat, key: UserKey, val: Val)
    requires end <= |es| && Seen(es, s, 0, end, c, Deletion, key, val)
    ensures LiveUpTo(es, s, end) == []
  {
    LiveGap(es, s, 0, end);
  }

  lemma PassUnseen(es: seq<Entry>, s: nat, q: nat, end: nat, c: nat, kind: ValueType, key: UserKey, val: Val)
    requires q < end <= |es| && !Visible(es[q], s)
    requires Seen(es, s, q + 1, end, c, kind, key, val)
    ensures Seen(es, s, q, end, c, kind, key, val)
  {
  }

  lemma SeeEntry(es: seq<Entry>, s: nat, q: nat, end: nat, c: nat, kind: ValueType, key: UserKey, val: Val)
    requires Sorted(es) && q < end <= |es| && Visible(es[q], s)
    requires Seen(es, s, q + 1, end, c, kind, key, val)
    requires kind.Value? ==> es[q].key.user >= key
    ensures es[q].key.kind.Value? ==> Seen(es, s, q, end, q, Value, es[q].key.user, es[q].val)
    ensures es[q].key.kind.Deletion? ==> Seen(es, s, q, end, q, Deletion, 0.0, "")
  {
    if kind.Value? {
      assert Less(es[q].key, es[c].key);
    }
  }

  lemma SeenYields(es: seq<Entry>, s: nat, pos: nat, end: nat, c: nat, kind: ValueType, key: UserKey, val: Val)
    requires Sorted(es) && Edge(es, pos) <= end <= |es| && kind.Value?
    requires Seen(es, s, Edge(es, pos), end, c, kind, key, val)
    requires Edge(es, pos) > 0 ==> es[Edge(es, pos) - 1].key.user < key
    ensures Yields(es, s, c) && |LiveUpTo(es, s, c)| == |LiveUpTo(es, s, end)| - 1
    ensures c < |es| && key == es[c].key.user && val == es[c].val && JustBefore(es, s, pos, c)
  {
    hide LiveUpTo;
    var q := Edge(es, pos);
    forall i | 0 <= i < q ensures es[i].key.user < es[c].key.user {
      assert i == q - 1 || Less(es[i].key, es[q - 1].key);
    }
    SeenCounts(es, s, q, end, c, kind, key, val);
  }

  lemma SeenCounts(es: seq<Entry>, s: nat, q: nat, end: nat, c: nat, kind: ValueType, key: UserKey, val: Val)
    requires q <= end <= |es| && kind.Value? && Seen(es, s, q, end, c, kind, key, val)
    requires forall i :: 0 <= i < q ==> es[i].key.user < es[c].key.user
    ensures Yields(es, s, c) && |LiveUpTo(es, s, c)| == |LiveUpTo(es, s, end)| - 1
  {
    LiveGap(es, s, c + 1, end);
  }

  // ---------- the iterator ----------

  datatype Direction = Forward | Reverse

  class UserCursor {
    const iter: EntryCursor
    const sequence: nat
    var savedKey: UserKey
    var savedValue: Val
    var direction: Direction
    var valid: bool
    /** Index of the current live entry among all entries, and its place among the live ones. */
    ghost var at: nat
    ghost var place: int

    ghost predicate Ok()
      reads this, iter
    {
      && iter.Ok()
      && (valid ==>
            && Yields(iter.entries, sequence, at)
            && place == |LiveUpTo(iter.entries, sequence, at)|
            && (direction.Forward? ==> iter.pos == at)
            && (direction.Reverse? ==>
                  && savedKey == iter.entries[at].key.user
                  && savedValue == iter.entries[at].val
                  && JustBefore(iter.entries, sequence, iter.pos, at)))
    }

    ghost function LiveEntries(): seq<Entry>
      reads this, iter
    {
      Live(iter.entries, sequence)
    }

    constructor (iter: EntryCursor, sequence: nat)
      requires iter.Ok()
      ensures Ok() && !valid && this.iter == iter && this.sequence == sequence
    {
      this.iter := iter;
      this.sequence := sequence;
      direction := Forward;
      valid := false;
      savedKey, savedValue := 0.0, "";
    }

    method Key() returns (r: UserKey)
      requires Ok() && valid
      ensures 0 <= place < |LiveEntries()| && r == LiveEntries()[place].key.user
    {
      LiveAt(iter.entries, sequence, at);
      r := if direction.Forward? then iter.Key().user else savedKey;
    }

    method Value() returns (r: Val)
      requires Ok() && valid
      ensures 0 <= place < |LiveEntries()| && r == LiveEntries()[place].val
    {
      LiveAt(iter.entries, sequence, at);
      r := if direction.Forward? then iter.Value() else savedValue;
    }

    method Seek(target: UserKey)
      requires Ok()
      modifies this, iter
      ensures Ok() && 0 <= place <= |LiveEntries()| && valid == (place < |LiveEntries()|)
      ensures forall k :: 0 <= k < place ==> LiveEntries()[k].key.user < target
      ensures forall k :: place <= k < |LiveEntries()| ==> LiveEntries()[k].key.user >= target
    {
      hide Sorted, Less, Yields, LiveUpTo, Hides, FirstAtOrAfter, JustBefore;
      direction := Forward;
      savedValue := "";
      iter.Seek(LookupKey(target, sequence));
      ghost var p := iter.pos;
      SeekStart(iter.entries, sequence, target, p);
      if iter.Valid() {
        FindNextUserEntry(false, 0.0);
        SeekPlace(iter.entries, sequence, target, p, if valid then at else |iter.entries|);
      } else {
        valid := false;
        place := |LiveEntries()|;
        SeekPlace(iter.entries, sequence, target, p, p);
      }
    }

    method SeekToFirst()
      requires Ok()
      modifies this, iter
      ensures Ok() && place == 0 && valid == (0 < |LiveEntries()|)
    {
      hide Sorted, Less, JustBefore;
      direction := Forward;
      savedValue := "";
      iter.SeekToFirst();
      if iter.Valid() {
        FindNextUserEntry(false, 0.0);
        WantedGap(iter.entries, sequence, 0, if valid then at else |iter.entries|);
      } else {
        valid := false;
        place := 0;
      }
    }

    method SeekToLast()
      requires Ok()
      modifies this, iter
      ensures Ok() && place == |LiveEntries()| - 1 && valid == (0 < |LiveEntries()|)
    {
      direction := Reverse;
      savedValue := "";
      iter.SeekToLast();
      FindPrevUserEntry(|iter.entries|);
    }

    method Next()
      requires Ok() && valid
      modifies this, iter
      ensures Ok() && place == old(place) + 1 && valid == (place < |LiveEntries()|)
    {
      ghost var es := iter.entries;
      ghost var from := at;
      if direction.Reverse? {
        direction := Forward;
        if !iter.Valid() {
          iter.SeekToFirst();
        } else {
          iter.Next();
        }
        if !iter.Valid() {
          // The entries of the current key are ahead, so this cannot happen.
          assert false;
        }
      } else {
        savedKey := iter.Key().user;
        AscendTo(es, at);
      }
      ghost var p := iter.pos;
      NextStart(es, sequence, p, from);
      FindNextUserEntry(true, savedKey);
      NextPlace(es, sequence, p, from, if valid then at else |es|);
    }

    method Prev()
      requires Ok() && valid
      modifies this, iter
      ensures Ok() && place == old(place) - 1 && valid == (place >= 0)
    {
      ghost var es := iter.entries;
      ghost var from := at;
      if direction.Forward? {
        savedKey := iter.Key().user;
        AscendTo(es, from);
        while true
          invariant iter.Ok() && iter.Valid() && iter.pos <= from
          invariant forall i :: iter.pos <= i <= from ==> es[i].key.user == savedKey
          decreases iter.pos
        {
          iter.Prev();
          if !iter.Valid() {
            valid := false;
            savedValue := "";
            LiveGap(es, sequence, 0, from);
            place := -1;
            return;
          }
          if iter.Key().user < savedKey {
            break;
          }
        }
        AscendTo(es, iter.pos);
        direction := Reverse;
      }
      FindPrevUserEntry(from);
    }

    /** Moves forward to the first live entry, or to the first one past `skip`. */
    method FindNextUserEntry(skipping: bool, skip: UserKey)
      requires iter.Ok() && iter.Valid() && direction.Forward?
      requires Hides(iter.entries, sequence, iter.pos, skipping, skip)
      requires Covers(iter.entries, sequence, iter.pos, skipping, skip, skipping, skip)
      modifies this, iter
      ensures Ok() && direction.Forward?
      ensures FirstWanted(iter.entries, sequence, old(iter.pos), skipping, skip, if valid then at else |iter.entries|)
      ensures place == |LiveUpTo(iter.entries, sequence, if valid then at else |iter.entries|)|
      ensures valid ==> place < |LiveEntries()|
    {
      hide Hides, Covers, Sorted, LiveUpTo, Yields;
      ghost var es := iter.entries;
      ghost var p := iter.pos;
      var hiding, upTo := skipping, skip;
      while true
        invariant iter.Ok() && iter.Valid() && p <= iter.pos && direction.Forward?
        invariant NoneWanted(es, sequence, p, iter.pos, skipping, skip)
        invariant Hides(es, sequence, iter.pos, hiding, upTo)
        invariant Covers(es, sequence, iter.pos, hiding, upTo, skipping, skip)
        decreases |es| - iter.pos
      {
        if iter.Key().sn <= sequence && iter.Key().kind.Deletion? {
          HideKey(es, sequence, iter.pos, hiding, upTo, skipping, skip);
          upTo := iter.Key().user;
          hiding := true;
        } else if iter.Key().sn <= sequence && !(hiding && iter.Key().user <= upTo) {
          AcceptEntry(es, sequence, iter.pos, hiding, upTo, skipping, skip);
          valid := true;
          savedKey := 0.0;
          at := iter.pos;
          place := |LiveUpTo(es, sequence, at)|;
          LiveAt(es, sequence, at);
          return;
        } else {
          PassEntry(es, sequence, iter.pos, hiding, upTo, skipping, skip);
        }
        iter.Next();
        if !iter.Valid() {
          break;
        }
      }
      savedKey := 0.0;
      valid := false;
      place := |LiveEntries()|;
    }

    /** Moves backward to the last live entry before index `end`. */
    method FindPrevUserEntry(ghost end: nat)
      requires iter.Ok() && direction.Reverse?
      requires Edge(iter.entries, iter.pos) <= end <= |iter.entries|
      requires NoneYields(iter.entries, sequence, Edge(iter.entries, iter.pos), end)
      modifies this, iter
      ensures Ok() && place == |LiveUpTo(iter.entries, sequence, end)| - 1 && valid == (place >= 0)
    {
      hide Sorted, Less, LiveUpTo, Yields, NoneYields, Seen, JustBefore;
      ghost var es := iter.entries;
      var valueType := Deletion;
      ghost var c := end;
      SeesNothing(es, sequence, Edge(es, iter.pos), end, c, savedKey, savedValue);
      if iter.Valid() {
        while true
          invariant iter.Ok() && iter.Valid() && iter.pos + 1 <= end && direction.Reverse?
          invariant Seen(es, sequence, iter.pos + 1, end, c, valueType, savedKey, savedValue)
          decreases iter.pos
        {
          if iter.Key().sn <= sequence {
            if valueType != Deletion && iter.Key().user < savedKey {
              break;
            }
            SeeEntry(es, sequence, iter.pos, end, c, valueType, savedKey, savedValue);
            c := iter.pos;
            valueType := iter.Key().kind;
            if valueType == Deletion {
              savedKey, savedValue := 0.0, "";
            } else {
              savedKey, savedValue := iter.Key().user, iter.Value();
            }
          } else {
            PassUnseen(es, sequence, iter.pos, end, c, valueType, savedKey, savedValue);
          }
          iter.Prev();
          if !iter.Valid() {
            break;
          }
        }
      }
      if valueType == Deletion {
        NoLive(es, sequence, end, c, savedKey, savedValue);
        valid := false;
        savedKey, savedValue := 0.0, "";
        direction := Forward;
        place := -1;
      } else {
        SeenYields(es, sequence, iter.pos, end, c, valueType, savedKey, savedValue);
        valid := true;
        at := c;
        place := |LiveUpTo(es, sequence, c)|;
      }
    }
  }

  lemma AscendTo(es: seq<Entry>, at: nat)
    requires Sorted(es) && at < |es|
    ensures forall i :: 0 <= i < at ==> es[i].key.user <= es[at].key.user
  {
    forall i | 0 <= i < at ensures es[i].key.user <= es[at].key.user {
      assert Less(es[i].key, es[at].key);
    }
  }
}
