/** Comparators: the bytewise order, the order of internal keys, and the short keys between two keys
    (util/comparator.cc, lines 19-66; db/dbformat.cc, lines 47-101). */
module Comparator {
  import opened DbFormat
  import opened Coding

  /** `less(a, b)` stands for `Compare(a, b) < 0`. */
  type Comparison = (Bytes, Bytes) -> bool

  /** Keys are totally ordered, up to keys that compare equal. */
  ghost predicate WeakOrder(less: Comparison) {
    && (forall a :: !less(a, a))
    && (forall a, b, c :: less(a, b) && less(b, c) ==> less(a, c))
    && (forall a, b, c :: less(a, b) ==> less(a, c) || less(c, b))
  }

  // ---------- bytewise ----------

  predicate BytesLess(a: Bytes, b: Bytes) {
    b != [] && (a == [] || a[0] < b[0] || (a[0] == b[0] && BytesLess(a[1..], b[1..])))
  }

  lemma {:induction false} BytesIrreflexive(a: Bytes)
    ensures !BytesLess(a, a)
  {
    if a != [] {
      BytesIrreflexive(a[1..]);
    }
  }

  lemma {:induction false} BytesTransitive(a: Bytes, b: Bytes, c: Bytes)
    requires BytesLess(a, b) && BytesLess(b, c)
    ensures BytesLess(a, c)
    decreases |a|
  {
    if a != [] && a[0] == b[0] && b[0] == c[0] {
      BytesTransitive(a[1..], b[1..], c[1..]);
    }
  }

  lemma {:induction false} BytesTotal(a: Bytes, b: Bytes)
    ensures BytesLess(a, b) || BytesLess(b, a) || a == b
  {
    if a != [] && b != [] && a[0] == b[0] {
      BytesTotal(a[1..], b[1..]);
    }
  }

  lemma BytesOrder()
    ensures WeakOrder(BytesLess)
  {
    forall a ensures !BytesLess(a, a) {
      BytesIrreflexive(a);
    }
    forall a, b, c | BytesLess(a, b) && BytesLess(b, c) ensures BytesLess(a, c) {
      BytesTransitive(a, b, c);
    }
    forall a, b, c | BytesLess(a, b) ensures BytesLess(a, c) || BytesLess(c, b) {
      BytesTotal(a, c);
      if BytesLess(c, a) {
        BytesTransitive(c, a, b);
      }
    }
  }

  /** The order is decided at the first difference. */
  lemma {:induction false} FirstDifference(a: Bytes, b: Bytes, n: nat)
    requires n <= |a| && n <= |b| && a[..n] == b[..n]
    requires n < |a| && n < |b| ==> a[n] != b[n]
    ensures BytesLess(a, b) <==> n < |b| && (n == |a| || a[n] < b[n])
  {
    if n > 0 {
      assert a[0] == a[..n][0] == b[..n][0] == b[0];
      assert a[1..][..n - 1] == a[..n][1..] == b[..n][1..] == b[1..][..n - 1];
      FirstDifference(a[1..], b[1..], n - 1);
    }
  }

  /** The first difference, at `d`, leaves room for a byte in between. */
  predicate RoomAt(start: Bytes, limit: Bytes, d: int) {
    0 <= d < |start| && d < |limit| && start[..d] == limit[..d] && start[d] < limit[d] &&
    limit[d] - start[d] > 1
  }

  /** Changes `start` to a short string that is at least `start` and less than `limit`: cut after the first difference
      if that leaves room, and unchanged if not. */
  method FindShortestSeparator(start: Bytes, limit: Bytes) returns (r: Bytes)
    ensures r == start || (|r| <= |start| && BytesLess(start, r) && BytesLess(r, limit))
    ensures BytesLess(start, limit) ==> BytesLess(r, limit)
    ensures forall d :: RoomAt(start, limit, d) ==> |r| == d + 1 && r[..d] == start[..d] && r[d] == start[d] + 1
    ensures (forall d :: !RoomAt(start, limit, d)) ==> r == start
  {
    var minLength := if |start| < |limit| then |start| else |limit|;
    var diffIndex := 0;
    while diffIndex < minLength && start[diffIndex] == limit[diffIndex]
      invariant diffIndex <= minLength && start[..diffIndex] == limit[..diffIndex]
    {
      diffIndex := diffIndex + 1;
    }
    r := start;
    forall d | RoomAt(start, limit, d) ensures d == diffIndex {
      SameStart(start, limit, diffIndex, d);
      SameStart(start, limit, d, diffIndex);
    }
    if diffIndex < minLength {
      var diffByte := start[diffIndex];
      if diffByte < 0xff && diffByte + 1 < limit[diffIndex] {
        r := start[..diffIndex] + [diffByte + 1];
        assert RoomAt(start, limit, diffIndex) && r[..diffIndex] == start[..diffIndex];
        FirstDifference(start, r, diffIndex);
        FirstDifference(r, limit, diffIndex);
      }
    }
  }

  lemma SameStart(a: Bytes, b: Bytes, n: nat, d: nat)
    requires n <= |a| && n <= |b| && a[..n] == b[..n]
    ensures d < n ==> a[d] == b[d]
  {
    if d < n {
      assert a[d] == a[..n][d];
    }
  }

  /** The first byte that can be incremented is at `i`. */
  predicate FirstBelow(key: Bytes, i: int) {
    0 <= i < |key| && key[i] != 0xff && forall j :: 0 <= j < i ==> key[j] == 0xff
  }

  /** Changes `key` to a short string that is at least `key`; a run of 0xff bytes is left alone. */
  method FindShortSuccessor(key: Bytes) returns (r: Bytes)
    ensures r == key || (|r| <= |key| && BytesLess(key, r))
    ensures r == key <==> forall i :: 0 <= i < |key| ==> key[i] == 0xff
    ensures forall i :: FirstBelow(key, i) ==>
      |r| == i + 1 && r[..i] == key[..i] && r[i] == key[i] + 1
  {
    for i := 0 to |key|
      invariant forall j :: 0 <= j < i ==> key[j] == 0xff
    {
      if key[i] != 0xff {
        r := key[..i] + [key[i] + 1];
        FirstDifference(key, r, i);
        BytesIrreflexive(key);
        return;
      }
    }
    r := key;
  }

  // ---------- internal keys ----------

  const TRAILER := 8

  /** The user key: all but the last eight bytes. */
  function UserOf(k: Bytes): Bytes {
    if |k| < TRAILER then [] else k[..|k| - TRAILER]
  }

  /** Sequence number and type, packed. */
  function TagOf(k: Bytes): Word64 {
    if |k| < TRAILER then 0 else DecodeFixed64(k[|k| - TRAILER..])
  }

  /** Increasing user key, then decreasing sequence number and type. */
  predicate InternalLess(a: Bytes, b: Bytes) {
    BytesLess(UserOf(a), UserOf(b)) || (UserOf(a) == UserOf(b) && TagOf(a) > TagOf(b))
  }

  lemma InternalOrder()
    ensures WeakOrder(InternalLess)
  {
    hide UserOf, TagOf, BytesLess;
    BytesOrder();
    assert forall a :: !BytesLess(UserOf(a), UserOf(a));
    forall a, b, c | InternalLess(a, b) ensures InternalLess(a, c) || InternalLess(c, b) {
      BytesTotal(UserOf(a), UserOf(c));
      BytesTotal(UserOf(c), UserOf(b));
    }
  }

  /** The earliest number for a user key: maximal sequence number, type for seeking. */
  const EARLIEST: Word64 := 0xffff_ffff_ffff_ff01

  function InternalKeyOf(user: Bytes, tag: Word64): (k: Bytes)
    ensures UserOf(k) == user && TagOf(k) == tag && |k| == |user| + TRAILER
  {
    var k := user + EncodeFixed64(tag);
    Fixed64RoundTrip(tag, []);
    assert k[|k| - TRAILER..] == EncodeFixed64(tag) + [];
    assert k[..|k| - TRAILER] == user;
    k
  }

  lemma RoomOnce(start: Bytes, limit: Bytes)
    ensures forall d, e :: RoomAt(start, limit, d) && RoomAt(start, limit, e) ==> d == e
    ensures forall d :: RoomAt(start, limit, d) ==> 0 <= d < |start|
  {
    forall d, e | RoomAt(start, limit, d) && RoomAt(start, limit, e) ensures d == e {
      SameStart(start, limit, d, e);
      SameStart(start, limit, e, d);
    }
  }

  /** A separator between internal keys: unchanged, or with a user key strictly between the two. */
  method InternalSeparator(start: Bytes, limit: Bytes) returns (r: Bytes)
    requires InternalLess(start, limit)
    ensures !InternalLess(r, start) && InternalLess(r, limit)
    ensures r == start || (BytesLess(UserOf(start), UserOf(r)) && BytesLess(UserOf(r), UserOf(limit)))
    ensures |r| <= |start|
    ensures forall d :: RoomAt(UserOf(start), UserOf(limit), d) && d + 1 < |UserOf(start)| ==>
      && TagOf(r) == 0xff_ffff_ffff_ffff * 256 + 1 && |r| == d + 1 + TRAILER
      && UserOf(r)[..d] == UserOf(start)[..d] && UserOf(r)[d] == UserOf(start)[d] + 1
    ensures (forall d :: RoomAt(UserOf(start), UserOf(limit), d) ==> d + 1 >= |UserOf(start)|) ==> r == start
  {
    assert |UserOf(start)| == if |start| < TRAILER then 0 else |start| - TRAILER;
    hide UserOf, TagOf, BytesLess, RoomAt, InternalLess, WeakOrder;
    BytesOrder();
    InternalFacts(start, limit);
    RoomOnce(UserOf(start), UserOf(limit));
    var userStart, userLimit := UserOf(start), UserOf(limit);
    var tmp := FindShortestSeparator(userStart, userLimit);
    r := start;
    if |tmp| < |userStart| && BytesLess(userStart, tmp) {
      r := InternalKeyOf(tmp, EARLIEST);
      InternalBetween(start, r, limit);
    }
  }

  lemma InternalFacts(start: Bytes, limit: Bytes)
    requires InternalLess(start, limit)
    ensures BytesLess(UserOf(start), UserOf(limit)) || UserOf(start) == UserOf(limit)
    ensures !InternalLess(start, start)
  {
    hide UserOf, TagOf;
    BytesOrder();
  }

  lemma InternalBetween(start: Bytes, r: Bytes, limit: Bytes)
    requires BytesLess(UserOf(start), UserOf(r)) && BytesLess(UserOf(r), UserOf(limit))
    ensures !InternalLess(r, start) && InternalLess(r, limit)
  {
    hide UserOf, TagOf, BytesLess;
    BytesOrder();
  }

  method InternalSuccessor(key: Bytes) returns (r: Bytes)
    ensures r == key || BytesLess(UserOf(key), UserOf(r))
    ensures !InternalLess(r, key) && |r| <= |key|
    ensures forall i :: FirstBelow(UserOf(key), i) && i + 1 < |UserOf(key)| ==>
      && TagOf(r) == 0xff_ffff_ffff_ffff * 256 + 1 && |r| == i + 1 + TRAILER
      && UserOf(r)[..i] == UserOf(key)[..i] && UserOf(r)[i] == UserOf(key)[i] + 1
    ensures (forall i :: FirstBelow(UserOf(key), i) ==> i + 1 >= |UserOf(key)|) ==> r == key
  {
    assert |UserOf(key)| == if |key| < TRAILER then 0 else |key| - TRAILER;
    hide UserOf, TagOf, BytesLess, InternalLess, WeakOrder, FirstBelow;
    BytesOrder();
    FirstOnce(UserOf(key));
    NotLessItself(key);
    var user := UserOf(key);
    var tmp := FindShortSuccessor(user);
    r := key;
    if |tmp| < |user| && BytesLess(user, tmp) {
      r := InternalKeyOf(tmp, EARLIEST);
      InternalAfter(key, r);
    }
  }

  lemma NotLessItself(k: Bytes)
    ensures !InternalLess(k, k)
  {
    hide UserOf, TagOf, BytesLess;
    BytesOrder();
  }

  lemma InternalAfter(k: Bytes, r: Bytes)
    requires BytesLess(UserOf(k), UserOf(r))
    ensures !InternalLess(r, k)
  {
    hide UserOf, TagOf, BytesLess;
    BytesOrder();
  }

  lemma FirstOnce(key: Bytes)
    ensures forall i, j :: FirstBelow(key, i) && FirstBelow(key, j) ==> i == j
    ensures forall i :: FirstBelow(key, i) ==> 0 <= i < |key|
    ensures (forall i :: !FirstBelow(key, i)) <==> (forall i :: 0 <= i < |key| ==> key[i] == 0xff)
  {
    if !forall i :: 0 <= i < |key| ==> key[i] == 0xff {
      var i := FirstBelowExists(key, 0);
    }
  }

  lemma FirstBelowExists(key: Bytes, n: nat) returns (i: nat)
    requires n <= |key| && (forall j :: 0 <= j < n ==> key[j] == 0xff)
    requires !forall j :: 0 <= j < |key| ==> key[j] == 0xff
    ensures FirstBelow(key, i)
    decreases |key| - n
  {
    if key[n] != 0xff {
      i := n;
    } else {
      i := FirstBelowExists(key, n + 1);
    }
  }
}
