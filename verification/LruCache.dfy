/** One shard of the LRU cache (util/cache.cc, lines 42-333). */
module LruCache {
  import opened Coding
  import opened CacheTable

  // ---------- circular doubly linked lists ----------

  /** Element `i` of the circle that starts and ends at its head. */
  function RingAt(head: nat, s: seq<nat>, i: nat): nat
    requires i <= |s| + 1
  {
    if i == 0 || i == |s| + 1 then head else s[i - 1]
  }

  predicate Link(next: seq<nat>, prev: seq<nat>, head: nat, s: seq<nat>, i: nat)
    requires i <= |s|
  {
    var a, b := RingAt(head, s, i), RingAt(head, s, i + 1);
    a < |next| && b < |prev| && next[a] == b && prev[b] == a
  }

  predicate Ring(next: seq<nat>, prev: seq<nat>, head: nat, s: seq<nat>) {
    && |next| == |prev|
    && head !in s
    && NoDuplicates(s)
    && forall i :: 0 <= i <= |s| ==> Link(next, prev, head, s, i)
  }

  function Drop(s: seq<nat>, h: nat): (r: seq<nat>)
    ensures |r| <= |s|
  {
    if s == [] then [] else if s[0] == h then s[1..] else [s[0]] + Drop(s[1..], h)
  }

  lemma {:induction false} DropAt(s: seq<nat>, i: nat)
    requires NoDuplicates(s) && i < |s|
    ensures Drop(s, s[i]) == s[..i] + s[i + 1..]
  {
    if i > 0 {
      DropAt(s[1..], i - 1);
      assert s[1..][i - 1] == s[i] && s[..i] == [s[0]] + s[1..][..i - 1];
    }
  }

  lemma {:induction false} DropMembers(s: seq<nat>, h: nat, x: nat)
    requires NoDuplicates(s)
    ensures x in Drop(s, h) <==> x in s && x != h
    ensures NoDuplicates(Drop(s, h))
    decreases |s|
  {
    if s != [] {
      var tail := s[1..];
      assert s == [s[0]] + tail && s[0] !in tail;
      DropMembers(tail, h, x);
      DropMembers(tail, h, s[0]);
    }
  }

  lemma {:induction false} DropNothing(s: seq<nat>, h: nat)
    requires h !in s
    ensures Drop(s, h) == s
  {
    if s != [] {
      DropNothing(s[1..], h);
    }
  }

  /** The two stores of LRU_Remove. */
  lemma RingRemoved(next: seq<nat>, prev: seq<nat>, head: nat, s: seq<nat>, e: nat)
    requires Ring(next, prev, head, s) && e in s
    ensures e < |next| && prev[e] < |next| && next[e] < |prev|
    ensures prev[e] in [head] + s && next[e] in [head] + s
    ensures Ring(next[prev[e] := next[e]], prev[next[e] := prev[e]], head, Drop(s, e))
  {
    hide Ring, Link, Drop, NoDuplicates;
    var i := Neighbours(next, prev, head, s, e);
    var next', prev', r := next[prev[e] := next[e]], prev[next[e] := prev[e]], Drop(s, e);
    forall k | 0 <= k <= |r| ensures Link(next', prev', head, r, k) {
      RingWithout(next, prev, head, s, i, k);
    }
    RingIs(next', prev', head, r);
  }

  lemma Neighbours(next: seq<nat>, prev: seq<nat>, head: nat, s: seq<nat>, e: nat) returns (i: nat)
    requires Ring(next, prev, head, s) && e in s
    ensures e < |next| == |prev| && prev[e] < |next| && next[e] < |prev|
    ensures prev[e] in [head] + s && next[e] in [head] + s
    ensures i < |s| && s[i] == e && Link(next, prev, head, s, i) && Link(next, prev, head, s, i + 1)
    ensures Drop(s, e) == s[..i] + s[i + 1..] && head !in Drop(s, e) && NoDuplicates(Drop(s, e))
  {
    i :| 0 <= i < |s| && s[i] == e;
    assert Link(next, prev, head, s, i) && Link(next, prev, head, s, i + 1);
    DropAt(s, i);
    DropMembers(s, e, head);
  }

  lemma RingIs(next: seq<nat>, prev: seq<nat>, head: nat, s: seq<nat>)
    requires |next| == |prev| && head !in s && NoDuplicates(s)
    requires forall i :: 0 <= i <= |s| ==> Link(next, prev, head, s, i)
    ensures Ring(next, prev, head, s)
  {
  }

  lemma RingWithout(next: seq<nat>, prev: seq<nat>, head: nat, s: seq<nat>, i: nat, k: nat)
    requires Ring(next, prev, head, s) && i < |s| && k < |s|
    requires Link(next, prev, head, s, i) && Link(next, prev, head, s, i + 1)
    ensures
      var e, r := s[i], s[..i] + s[i + 1..];
      Link(next[prev[e] := next[e]], prev[next[e] := prev[e]], head, r, k)
  {
    assert Link(next, prev, head, s, if k <= i then k else k + 1);
  }

  /** The four stores of LRU_Append. */
  lemma RingAppended(next: seq<nat>, prev: seq<nat>, head: nat, s: seq<nat>, e: nat)
    requires Ring(next, prev, head, s) && e !in s && e != head && e < |next|
    ensures head < |next| && prev[head] < |next| && prev[head] in [head] + s && prev[head] != e
    ensures Ring(next[e := head][prev[head] := e], prev[e := prev[head]][head := e], head, s + [e])
  {
    assert Link(next, prev, head, s, |s|) && Link(next, prev, head, s, 0);
    var last := prev[head];
    var next', prev', r := next[e := head][last := e], prev[e := last][head := e], s + [e];
    forall k | 0 <= k <= |r| ensures Link(next', prev', head, r, k) {
      if k <= |s| {
        assert Link(next, prev, head, s, k);
      }
    }
  }

  /** Stores to records outside of a circle. */
  lemma RingOther(next: seq<nat>, prev: seq<nat>, head: nat, s: seq<nat>, a: nat, x: nat, b: nat, y: nat)
    requires Ring(next, prev, head, s) && a < |next| && b < |prev|
    requires a !in [head] + s && b !in [head] + s
    ensures Ring(next[a := x], prev[b := y], head, s)
  {
    var next', prev' := next[a := x], prev[b := y];
    forall k | 0 <= k <= |s| ensures Link(next', prev', head, s, k) {
      assert Link(next, prev, head, s, k);
      assert RingAt(head, s, k) in [head] + s && RingAt(head, s, k + 1) in [head] + s;
    }
  }

  // ---------- the cache as values ----------

  /** The two lists, oldest first; the references that clients hold; the calls of the deleter; the entries that the
      cache itself refers to. */
  datatype Model = Model(lru: seq<nat>, inUse: seq<nat>, held: multiset<nat>, deleted: seq<nat>, cached: set<nat>)

  /** `n` handles have been allocated; 0 and 1 are the heads of the lists. */
  ghost predicate Ok(m: Model, n: nat) {
    && NoDuplicates(m.lru) && NoDuplicates(m.inUse) && NoDuplicates(m.deleted)
    && (forall h: nat :: h in m.lru <==> h in m.cached && m.held[h] == 0)
    && (forall h: nat :: h in m.inUse <==> h in m.cached && m.held[h] > 0)
    && (forall h: nat :: h in m.cached || h in m.held ==> 2 <= h < n)
    && (forall h: nat :: h in m.deleted <==> 2 <= h < n && h !in m.cached && m.held[h] == 0)
  }

  /** A client gets a reference. */
  function Hold(m: Model, h: nat): Model {
    if h in m.cached && m.held[h] == 0 then
      m.(lru := Drop(m.lru, h), inUse := m.inUse + [h], held := m.held + multiset{h})
    else m.(held := m.held + multiset{h})
  }

  /** A client gives its reference back. */
  function Unhold(m: Model, h: nat): Model {
    var held := m.held - multiset{h};
    if held[h] > 0 then m.(held := held)
    else if h in m.cached then m.(held := held, lru := m.lru + [h], inUse := Drop(m.inUse, h))
    else m.(held := held, deleted := m.deleted + [h])
  }

  /** The cache gives its reference up. */
  function Uncache(m: Model, h: nat): Model {
    Model(Drop(m.lru, h), Drop(m.inUse, h), m.held, if m.held[h] == 0 then m.deleted + [h] else m.deleted,
          m.cached - {h})
  }

  /** A new handle, held by the client, and by the cache if `cache`. */
  function Allocate(m: Model, h: nat, cache: bool): Model {
    if cache then m.(inUse := m.inUse + [h], held := m.held + multiset{h}, cached := m.cached + {h})
    else m.(held := m.held + multiset{h})
  }

  function ChargeOf(charge: seq<nat>, h: nat): nat {
    if h < |charge| then charge[h] else 0
  }

  function Charges(charge: seq<nat>, s: seq<nat>): nat {
    if s == [] then 0 else ChargeOf(charge, s[0]) + Charges(charge, s[1..])
  }

  lemma HoldOk(m: Model, n: nat, h: nat)
    requires Ok(m, n) && (h in m.cached || h in m.held)
    ensures Ok(Hold(m, h), n)
  {
    hide Drop;
    forall x: nat ensures x in Drop(m.lru, h) <==> x in m.lru && x != h {
      DropMembers(m.lru, h, x);
    }
    DropMembers(m.lru, h, h);
  }

  lemma UnholdOk(m: Model, n: nat, h: nat)
    requires Ok(m, n) && h in m.held
    ensures Ok(Unhold(m, h), n)
  {
    hide Drop;
    forall x: nat ensures x in Drop(m.inUse, h) <==> x in m.inUse && x != h {
      DropMembers(m.inUse, h, x);
    }
    DropMembers(m.inUse, h, h);
  }

  lemma NotInDrop(m: Model, n: nat, h: nat)
    requires Ok(m, n)
    ensures h !in Drop(m.lru, h) && h !in Drop(m.inUse, h)
  {
    DropMembers(m.lru, h, h);
    DropMembers(m.inUse, h, h);
  }

  lemma UncacheOk(m: Model, n: nat, h: nat)
    requires Ok(m, n) && h in m.cached
    ensures Ok(Uncache(m, h), n)
  {
    forall x: nat
      ensures x in Drop(m.inUse, h) <==> x in m.inUse && x != h
      ensures x in Drop(m.lru, h) <==> x in m.lru && x != h
    {
      DropMembers(m.inUse, h, x);
      DropMembers(m.lru, h, x);
    }
    DropMembers(m.inUse, h, h);
    DropMembers(m.lru, h, h);
  }

  lemma AllocateOk(m: Model, n: nat, cache: bool)
    requires Ok(m, n) && n >= 2
    ensures Ok(Allocate(m, n, cache), n + 1)
  {
  }

  lemma {:induction false} ChargesAppend(charge: seq<nat>, s: seq<nat>, h: nat)
    ensures Charges(charge, s + [h]) == Charges(charge, s) + ChargeOf(charge, h)
  {
    if s != [] {
      assert (s + [h])[1..] == s[1..] + [h];
      ChargesAppend(charge, s[1..], h);
    }
  }

  lemma {:induction false} ChargesDrop(charge: seq<nat>, s: seq<nat>, h: nat)
    ensures Charges(charge, Drop(s, h)) == Charges(charge, s) - if h in s then ChargeOf(charge, h) else 0
  {
    if s != [] && s[0] != h {
      var d := Drop(s[1..], h);
      ChargesDrop(charge, s[1..], h);
      assert ([s[0]] + d)[1..] == d;
    }
  }

  lemma {:induction false} ChargesGrow(charge: seq<nat>, s: seq<nat>, c: nat)
    requires forall i :: 0 <= i < |s| ==> s[i] < |charge|
    ensures Charges(charge + [c], s) == Charges(charge, s)
  {
    if s != [] {
      ChargesGrow(charge, s[1..], c);
    }
  }

  /** The oldest unused entries go until the usage fits, or there are none. */
  function Evicted(m: Model, charge: seq<nat>, usage: int, capacity: nat): (Model, int)
    decreases |m.lru|
  {
    if usage > capacity && m.lru != [] then
      Evicted(Uncache(m, m.lru[0]), charge, usage - ChargeOf(charge, m.lru[0]), capacity)
    else (m, usage)
  }

  // ---------- both lists at once ----------

  const LRU: nat := 0
  const IN_USE: nat := 1

  ghost predicate Rings(next: seq<nat>, prev: seq<nat>, lru: seq<nat>, inUse: seq<nat>) {
    && Ring(next, prev, LRU, lru)
    && Ring(next, prev, IN_USE, inUse)
    && IN_USE !in lru
    && LRU !in inUse
    && forall h :: h in lru ==> h !in inUse
  }

  lemma RemovedRings(next: seq<nat>, prev: seq<nat>, lru: seq<nat>, inUse: seq<nat>, e: nat)
    requires Rings(next, prev, lru, inUse) && (e in lru || e in inUse)
    ensures e < |next| && prev[e] < |next| && next[e] < |prev|
    ensures Rings(next[prev[e] := next[e]], prev[next[e] := prev[e]], Drop(lru, e), Drop(inUse, e))
  {
    forall x: nat
      ensures x in Drop(lru, e) <==> x in lru && x != e
      ensures x in Drop(inUse, e) <==> x in inUse && x != e
    {
      DropMembers(lru, e, x);
      DropMembers(inUse, e, x);
    }
    if e in lru {
      RingRemoved(next, prev, LRU, lru, e);
      DropNothing(inUse, e);
      RingOther(next, prev, IN_USE, inUse, prev[e], next[e], next[e], prev[e]);
    } else {
      RingRemoved(next, prev, IN_USE, inUse, e);
      DropNothing(lru, e);
      RingOther(next, prev, LRU, lru, prev[e], next[e], next[e], prev[e]);
    }
  }

  lemma AppendedRings(next: seq<nat>, prev: seq<nat>, lru: seq<nat>, inUse: seq<nat>, list: nat, e: nat)
    requires Rings(next, prev, lru, inUse) && e !in lru && e !in inUse && 2 <= e < |next|
    requires list == LRU || list == IN_USE
    ensures list < |next| && prev[list] < |next| && prev[list] != e
    ensures
      var (lru', inUse') := if list == LRU then (lru + [e], inUse) else (lru, inUse + [e]);
      Rings(next[e := list][prev[list] := e], prev[e := prev[list]][list := e], lru', inUse')
  {
    if list == LRU {
      RingAppended(next, prev, LRU, lru, e);
      RingOther(next, prev, IN_USE, inUse, e, list, e, prev[list]);
      RingOther(next[e := list], prev[e := prev[list]], IN_USE, inUse, prev[list], e, list, e);
    } else {
      RingAppended(next, prev, IN_USE, inUse, e);
      RingOther(next, prev, LRU, lru, e, list, e, prev[list]);
      RingOther(next[e := list], prev[e := prev[list]], LRU, lru, prev[list], e, list, e);
    }
  }

  /** What the fields say about the handles: a reference is a client's or the cache's. */
  ghost predicate CountsOf(charge: seq<nat>, usage: nat, inCache: seq<bool>, refs: seq<nat>, m: Model) {
    && |charge| == |inCache| == |refs|
    && usage == Charges(charge, m.lru) + Charges(charge, m.inUse)
    && forall h: nat :: 2 <= h < |refs| ==>
         inCache[h] == (h in m.cached) && refs[h] == m.held[h] + if h in m.cached then 1 else 0
  }

  lemma HoldCounts(charge: seq<nat>, usage: nat, inCache: seq<bool>, refs: seq<nat>, m: Model, e: nat)
    requires CountsOf(charge, usage, inCache, refs, m) && Ok(m, |refs|) && (e in m.cached || e in m.held)
    ensures e < |refs| && CountsOf(charge, usage, inCache, refs[e := refs[e] + 1], Hold(m, e))
  {
    hide Charges;
    ChargesDrop(charge, m.lru, e);
    ChargesAppend(charge, m.inUse, e);
  }

  lemma UnholdCounts(charge: seq<nat>, usage: nat, inCache: seq<bool>, refs: seq<nat>, m: Model, e: nat)
    requires CountsOf(charge, usage, inCache, refs, m) && Ok(m, |refs|) && e in m.held
    ensures e < |refs| && refs[e] > 0
    ensures CountsOf(charge, usage, inCache, refs[e := refs[e] - 1], Unhold(m, e))
  {
    hide Charges;
    ChargesDrop(charge, m.inUse, e);
    ChargesAppend(charge, m.lru, e);
  }

  lemma UncacheCounts(charge: seq<nat>, usage: nat, inCache: seq<bool>, refs: seq<nat>, m: Model, e: nat)
    requires CountsOf(charge, usage, inCache, refs, m) && Ok(m, |refs|) && e in m.cached
    ensures e < |refs| && refs[e] > 0 && charge[e] <= usage
    ensures CountsOf(charge, usage - charge[e], inCache[e := false], refs[e := refs[e] - 1], Uncache(m, e))
  {
    hide Charges;
    ChargesDrop(charge, m.inUse, e);
    ChargesDrop(charge, m.lru, e);
  }

  lemma AllocateCounts(charge: seq<nat>, usage: nat, inCache: seq<bool>, refs: seq<nat>, m: Model, c: nat)
    requires CountsOf(charge, usage, inCache, refs, m) && Ok(m, |refs|)
    ensures CountsOf(charge + [c], usage, inCache + [false], refs + [1], Allocate(m, |refs|, false))
  {
    hide Charges;
    forall i | 0 <= i < |m.lru| ensures m.lru[i] < |charge| {
      assert m.lru[i] in m.lru;
    }
    forall i | 0 <= i < |m.inUse| ensures m.inUse[i] < |charge| {
      assert m.inUse[i] in m.inUse;
    }
    ChargesGrow(charge, m.lru, c);
    ChargesGrow(charge, m.inUse, c);
  }

  class LRUCache {
    var capacity: nat
    var usage: nat
    const table: HandleTable
    var next: seq<nat>
    var prev: seq<nat>
    var charge: seq<nat>
    var inCache: seq<bool>
    var refs: seq<nat>
    /** Calls of the deleter, in order. */
    var deleted: seq<nat>
    ghost var m: Model

    ghost predicate Fields()
      reads this
    {
      && |next| == |prev| == |charge| == |inCache| == |refs| >= 2
      && Rings(next, prev, m.lru, m.inUse)
      && deleted == m.deleted
    }

    ghost predicate Counts()
      reads this
    {
      CountsOf(charge, usage, inCache, refs, m)
    }

    /** All but the table. */
    ghost predicate Consistent()
      reads this
    {
      Fields() && Counts() && Ok(m, |refs|)
    }

    ghost predicate Valid()
      reads this, table
    {
      Consistent() && table.Valid() && table.members == m.cached && |table.idents| == |refs|
    }

    constructor (capacity: nat)
      ensures Valid() && fresh(table)
      ensures m == Model([], [], multiset{}, [], {}) && this.capacity == capacity && usage == 0
    {
      this.capacity := capacity;
      usage := 0;
      table := new HandleTable();
      next, prev := [LRU, IN_USE], [LRU, IN_USE];
      charge, inCache, refs, deleted := [0, 0], [false, false], [0, 0], [];
      m := Model([], [], multiset{}, [], {});
    }

    // ---------- lists ----------

    method LruRemove(e: nat)
      requires Fields() && (e in m.lru || e in m.inUse)
      modifies this`next, this`prev, this`m
      ensures Fields() && m == old(m).(lru := Drop(old(m).lru, e), inUse := Drop(old(m).inUse, e))
    {
      RemovedRings(next, prev, m.lru, m.inUse, e);
      prev := prev[next[e] := prev[e]];
      next := next[prev[e] := next[e]];
      m := m.(lru := Drop(m.lru, e), inUse := Drop(m.inUse, e));
    }

    /** Makes `e` the newest entry, just before the head of the list. */
    method LruAppend(list: nat, e: nat)
      requires Fields() && e !in m.lru && e !in m.inUse && 2 <= e < |next| && (list == LRU || list == IN_USE)
      modifies this`next, this`prev, this`m
      ensures Fields()
      ensures m == if list == LRU then old(m).(lru := old(m).lru + [e]) else old(m).(inUse := old(m).inUse + [e])
    {
      AppendedRings(next, prev, m.lru, m.inUse, list, e);
      next := next[e := list];
      prev := prev[e := prev[list]];
      next := next[prev[e] := e];
      prev := prev[next[e] := e];
      m := if list == LRU then m.(lru := m.lru + [e]) else m.(inUse := m.inUse + [e]);
    }

    // ---------- references ----------

    /** For a new client of `e`. */
    method Ref(e: nat)
      requires Consistent() && (e in m.cached || e in m.held)
      modifies this`next, this`prev, this`refs, this`m
      ensures Consistent() && m == Hold(old(m), e)
      ensures |refs| == |old(refs)|
    {
      hide Rings, Drop, Ok, CountsOf;
      ghost var before := m;
      Known(e);
      HoldOk(m, |refs|, e);
      HoldCounts(charge, usage, inCache, refs, m, e);
      if refs[e] == 1 && inCache[e] {
        LruRemove(e);
        DropNothing(before.inUse, e);
        NotInDrop(before, |refs|, e);
        LruAppend(IN_USE, e);
      }
      refs := refs[e := refs[e] + 1];
      m := Hold(before, e);
    }

    /** Drops one reference: the deleter is called for the last, and an entry that only the cache refers to goes to the
        list of unused ones. */
    method Unref(e: nat)
      requires Fields() && 2 <= e < |refs| && refs[e] > 0
      requires refs[e] == 1 ==> !inCache[e]
      requires refs[e] == 2 && inCache[e] ==> e in m.inUse
      modifies this`next, this`prev, this`refs, this`deleted, this`m
      ensures Fields() && refs == old(refs)[e := old(refs)[e] - 1]
      ensures m == if old(refs)[e] == 1 then old(m).(deleted := old(m).deleted + [e])
                   else if old(refs)[e] == 2 && inCache[e] then
                     old(m).(lru := Drop(old(m).lru, e) + [e], inUse := Drop(old(m).inUse, e))
                   else old(m)
    {
      refs := refs[e := refs[e] - 1];
      if refs[e] == 0 {
        deleted := deleted + [e];
        m := m.(deleted := m.deleted + [e]);
      } else if inCache[e] && refs[e] == 1 {
        DropMembers(m.lru, e, e);
        DropMembers(m.inUse, e, e);
        LruRemove(e);
        LruAppend(LRU, e);
      }
    }

    /** The fields of one handle in terms of the model. */
    lemma Known(e: nat)
      requires Consistent() && (e in m.held || e in m.cached)
      ensures 2 <= e < |refs| && inCache[e] == (e in m.cached)
      ensures refs[e] == m.held[e] + if e in m.cached then 1 else 0
      ensures e in m.lru <==> e in m.cached && m.held[e] == 0
      ensures e in m.inUse <==> e in m.cached && m.held[e] > 0
      ensures LRU !in m.lru
    {
    }

    /** A client gives `e` back. */
    method Release(e: nat)
      requires Valid() && e in m.held
      modifies this`next, this`prev, this`refs, this`deleted, this`m
      ensures Valid() && m == Unhold(old(m), e)
    {
      hide Rings, Ok, CountsOf, HandleTable.Valid;
      ghost var before := m;
      Known(e);
      UnholdOk(m, |refs|, e);
      UnholdCounts(charge, usage, inCache, refs, m, e);
      DropNothing(m.lru, if before.held[e] == 1 && e in before.cached then e else LRU);
      Unref(e);
      m := m.(held := m.held - multiset{e});
      assert m == Unhold(before, e);
    }

    /** The cache forgets `e`, which has been removed from the table, if it is not null. */
    method FinishErase(e: nat) returns (erased: bool)
      requires Consistent() && (e == NIL || e in m.cached)
      modifies this`next, this`prev, this`refs, this`inCache, this`usage, this`deleted, this`m
      ensures Consistent() && erased == (e != NIL) && |refs| == |old(refs)|
      ensures m == if e == NIL then old(m) else Uncache(old(m), e)
      ensures usage == old(usage) - if e == NIL then 0 else ChargeOf(charge, e)
    {
      hide Rings, Ok, CountsOf, Drop;
      if e != NIL {
        ghost var before := m;
        Known(e);
        UncacheOk(m, |refs|, e);
        UncacheCounts(charge, usage, inCache, refs, m, e);
        LruRemove(e);
        inCache := inCache[e := false];
        usage := usage - charge[e];
        m := m.(cached := m.cached - {e});
        Unref(e);
        assert m == Uncache(before, e);
      }
      erased := e != NIL;
    }

    // ---------- operations ----------

    method Lookup(key: Bytes, hash: nat) returns (h: nat)
      requires Valid()
      modifies this`next, this`prev, this`refs, this`m
      ensures Valid()
      ensures table.IsAnswer(h, key, hash)
      ensures m == if h == NIL then old(m) else Hold(old(m), h)
    {
      h := table.Lookup(key, hash);
      if h != NIL {
        Ref(h);
      }
    }

    method Erase(key: Bytes, hash: nat) returns (ghost erased: nat)
      requires Valid()
      modifies this`next, this`prev, this`refs, this`inCache, this`usage, this`deleted, this`m
      modifies table`elems, table`list, table`nextHash, table`chains, table`members
      ensures Valid()
      ensures old(table.IsAnswer(erased, key, hash))
      ensures m == if erased == NIL then old(m) else Uncache(old(m), erased)
    {
      hide Ok, Rings, Charges, Drop, LRUCache.Counts, HandleTable.Valid;
      table.MembersAllocated();
      var h := table.Remove(key, hash);
      var _ := FinishErase(h);
      erased := h;
    }

    /** The oldest unused entry, through the table. */
    method EraseOldest()
      requires Valid() && m.lru != []
      modifies this`next, this`prev, this`refs, this`inCache, this`usage, this`deleted, this`m
      modifies table`elems, table`list, table`nextHash, table`chains, table`members
      ensures Valid() && |refs| == old(|refs|)
      ensures m == Uncache(old(m), old(m).lru[0]) && usage == old(usage) - ChargeOf(charge, old(m).lru[0])
    {
      ghost var oldest := m.lru[0];
      assert oldest in m.lru;
      assert Link(next, prev, LRU, m.lru, 0);
      var e := next[LRU];
      var h := table.Remove(table.idents[e].key, table.idents[e].hash);
      assert h == e;
      var _ := FinishErase(h);
    }

    method Prune()
      requires Valid()
      modifies this`next, this`prev, this`refs, this`inCache, this`usage, this`deleted, this`m
      modifies table`elems, table`list, table`nextHash, table`chains, table`members
      ensures Valid()
      ensures m.lru == [] && m.inUse == old(m).inUse && m.held == old(m).held
      ensures deleted == old(deleted) + old(m).lru
    {
      hide Ok, Rings, Charges, Drop, LRUCache.Counts, HandleTable.Valid;
      ghost var gone: seq<nat> := [];
      assert [] + m.lru == m.lru && m.deleted + [] == m.deleted;
      Head();
      while next[LRU] != LRU
        invariant Valid() && (next[LRU] == LRU <==> m.lru == [])
        invariant gone + m.lru == old(m).lru && m.deleted == old(m).deleted + gone
        invariant m.inUse == old(m).inUse && m.held == old(m).held
        decreases |m.lru|
      {
        ghost var oldest, before := m.lru[0], m;
        OldestGone(m, |refs|);
        EraseOldest();
        assert gone + before.lru == gone + [oldest] + m.lru;
        assert old(m).deleted + gone + [oldest] == old(m).deleted + (gone + [oldest]);
        gone := gone + [oldest];
        Head();
      }
    }

    /** The list is empty when its head points to itself. */
    lemma Head()
      requires Valid()
      ensures |next| > LRU && (next[LRU] == LRU <==> m.lru == [])
    {
      assert Link(next, prev, LRU, m.lru, 0);
    }

    /** A handle with one reference, for the caller. */
    method NewHandle(key: Bytes, hash: nat, c: nat) returns (e: nat)
      requires Valid()
      modifies this`next, this`prev, this`charge, this`inCache, this`refs, this`m
      modifies table`idents, table`nextHash
      ensures Valid() && e == |old(refs)| && m == Allocate(old(m), e, false)
      ensures charge == old(charge) + [c] && |refs| == e + 1 > 2
      ensures table.idents == old(table.idents) + [Ident(key, hash)] && table.Holds(e, key, hash)
      ensures forall h :: table.IsAnswer(h, key, hash) ==> old(table.IsAnswer(h, key, hash))
    {
      hide Rings, Ok, CountsOf, Charges, HandleTable.Valid;
      table.MembersAllocated();
      AllocateOk(m, |refs|, false);
      RingsGrow(next, prev, m.lru, m.inUse);
      AllocateCounts(charge, usage, inCache, refs, m, c);
      e := table.Allocate(key, hash);
      next, prev, charge := next + [NIL], prev + [NIL], charge + [c];
      inCache, refs := inCache + [false], refs + [1];
      m := Allocate(m, e, false);
    }

    /** The reference of the cache. */
    method TakeReference(e: nat)
      requires Consistent() && 2 <= e < |refs| && e !in m.cached && e in m.held
      modifies this`next, this`prev, this`refs, this`inCache, this`usage, this`m
      ensures Consistent() && |refs| == |old(refs)|
      ensures m == old(m).(inUse := old(m).inUse + [e], cached := old(m).cached + {e})
    {
      hide Ring, NoDuplicates, Charges;
      ChargesAppend(charge, m.inUse, e);
      refs := refs[e := refs[e] + 1];
      inCache := inCache[e := true];
      LruAppend(IN_USE, e);
      m := m.(cached := m.cached + {e});
      usage := usage + charge[e];
      AdoptOk(old(m), |refs|, e);
    }

    /** Puts `e` in the cache, in place of another entry with the same key. */
    method Adopt(e: nat) returns (replaced: nat)
      requires Valid() && 2 <= e < |refs| && e !in m.cached && e in m.held
      modifies this`next, this`prev, this`refs, this`inCache, this`usage, this`deleted, this`m
      modifies table`length, table`elems, table`list, table`nextHash, table`chains, table`members
      ensures Valid() && |refs| == |old(refs)|
      ensures old(table.IsAnswer(replaced, table.idents[e].key, table.idents[e].hash))
      ensures
        var added := old(m).(inUse := old(m).inUse + [e], cached := old(m).cached + {e});
        m == if replaced == NIL then added else Uncache(added, replaced)
    {
      hide Ok, Rings, Charges, Drop, LRUCache.Counts, HandleTable.Valid;
      table.MembersAllocated();
      TakeReference(e);
      replaced := table.Insert(e);
      var _ := FinishErase(replaced);
    }

    lemma UsageIs()
      requires Valid()
      ensures usage == Charges(charge, m.lru) + Charges(charge, m.inUse)
    {
    }

    method Insert(key: Bytes, hash: nat, c: nat) returns (e: nat, ghost replaced: nat)
      requires Valid()
      modifies this, table
      ensures Valid() && capacity == old(capacity)
      ensures e == |old(refs)| && table.Holds(e, key, hash) && charge == old(charge) + [c]
      ensures if capacity > 0 then old(table.IsAnswer(replaced, key, hash)) else replaced == NIL
      ensures m == Inserted(old(m), e, replaced, charge, capacity)
      ensures usage <= capacity || m.lru == []
    {
      hide Ok, Rings, Charges, Drop, Uncache, LRUCache.Valid, HandleTable.IsAnswer;
      NewHandleIs(key, hash);
      e := NewHandle(key, hash, c);
      replaced := NIL;
      if capacity > 0 {
        replaced := Adopt(e);
      }
      ghost var first, firstUsage := m, usage;
      UsageIs();
      Head();
      while usage > capacity && next[LRU] != LRU
        invariant Valid() && |next| > LRU && (next[LRU] == LRU <==> m.lru == [])
        invariant capacity == old(capacity) && charge == old(charge) + [c]
        invariant table.Holds(e, key, hash)
        invariant Evicted(first, charge, firstUsage, capacity) == Evicted(m, charge, usage, capacity)
        decreases |m.lru|
      {
        OldestIs();
        EraseOldest();
        Head();
      }
    }

    /** The new handle is not in the cache yet, so it does not change which one has the key. */
    lemma NewHandleIs(key: Bytes, hash: nat)
      requires Valid()
      ensures |refs| !in m.cached
    {
      hide Rings, LRUCache.Counts, HandleTable.Valid;
      NewIsNotCached(m, |refs|);
    }

    lemma OldestIs()
      requires Valid() && m.lru != []
      ensures var after := Uncache(m, m.lru[0]);
        && after.lru == m.lru[1..] && m.lru == [m.lru[0]] + after.lru
        && after.inUse == m.inUse && after.held == m.held && after.deleted == m.deleted + [m.lru[0]]
    {
      hide Rings, Ok, LRUCache.Counts, HandleTable.Valid, Uncache;
      OldestGone(m, |refs|);
    }
  }

  lemma RingsGrow(next: seq<nat>, prev: seq<nat>, lru: seq<nat>, inUse: seq<nat>)
    requires Rings(next, prev, lru, inUse)
    ensures Rings(next + [NIL], prev + [NIL], lru, inUse)
  {
    var next', prev' := next + [NIL], prev + [NIL];
    forall i | 0 <= i <= |lru| ensures Link(next', prev', LRU, lru, i) {
      assert Link(next, prev, LRU, lru, i);
    }
    forall i | 0 <= i <= |inUse| ensures Link(next', prev', IN_USE, inUse, i) {
      assert Link(next, prev, IN_USE, inUse, i);
    }
  }

  lemma OldestGone(m: Model, n: nat)
    requires Ok(m, n) && m.lru != []
    ensures
      var after := Uncache(m, m.lru[0]);
      && after.lru == m.lru[1..] && m.lru == [m.lru[0]] + after.lru
      && after.inUse == m.inUse && after.held == m.held && after.deleted == m.deleted + [m.lru[0]]
      && Ok(after, n)
  {
    assert m.lru[0] in m.lru;
    DropNothing(m.inUse, m.lru[0]);
    UncacheOk(m, n, m.lru[0]);
  }

  lemma NewIsNotCached(m: Model, n: nat)
    requires Ok(m, n)
    ensures n !in m.cached
  {
  }

  lemma AdoptOk(m: Model, n: nat, e: nat)
    requires Ok(m, n) && e in m.held && e !in m.cached
    ensures Ok(m.(inUse := m.inUse + [e], cached := m.cached + {e}), n)
  {
  }

  /** After an insertion of handle `e` that replaces `r`. */
  function Inserted(m: Model, e: nat, r: nat, charge: seq<nat>, capacity: nat): Model {
    var added := Allocate(m, e, capacity > 0);
    var first := if r == NIL then added else Uncache(added, r);
    Evicted(first, charge, Charges(charge, first.lru) + Charges(charge, first.inUse), capacity).0
  }

  // ---------- runs ----------

  /** Eviction takes the shortest prefix of the unused entries that makes the usage fit, and deletes it in order. */
  lemma {:induction false} EvictedIs(m: Model, n: nat, charge: seq<nat>, usage: int, capacity: nat) returns (k: nat)
    requires Ok(m, n)
    ensures k <= |m.lru|
    ensures
      var (after, left) := Evicted(m, charge, usage, capacity);
      && Ok(after, n)
      && after.lru == m.lru[k..] && after.inUse == m.inUse && after.held == m.held
      && after.deleted == m.deleted + m.lru[..k]
      && left == usage - Charges(charge, m.lru[..k])
      && (left <= capacity || k == |m.lru|)
    ensures forall j :: 0 <= j < k ==> usage - Charges(charge, m.lru[..j]) > capacity
    decreases |m.lru|
  {
    hide Ok, Uncache;
    if usage > capacity && m.lru != [] {
      var next := Uncache(m, m.lru[0]);
      OldestGone(m, n);
      var rest := EvictedIs(next, n, charge, usage - ChargeOf(charge, m.lru[0]), capacity);
      k := rest + 1;
      assert m.lru[..k] == [m.lru[0]] + next.lru[..rest];
      ChargesFirst(charge, m.lru[0], next.lru[..rest]);
      assert m.deleted + m.lru[..k] == next.deleted + next.lru[..rest];
      forall j | 0 <= j < k ensures usage - Charges(charge, m.lru[..j]) > capacity {
        if j > 0 {
          assert m.lru[..j] == [m.lru[0]] + next.lru[..j - 1];
          ChargesFirst(charge, m.lru[0], next.lru[..j - 1]);
        }
      }
    } else {
      k := 0;
      assert m.lru[0..] == m.lru && m.lru[..0] == [] && m.deleted + [] == m.deleted;
    }
  }

  /** The client holds the new entry; it is in the cache, in place of the one that it replaces, unless nothing can be. */
  lemma InsertedIs(m: Model, n: nat, r: nat, charge: seq<nat>, capacity: nat)
    requires n >= 2 && Ok(m, n) && (r == NIL || r in m.cached)
    ensures
      var after := Inserted(m, n, r, charge, capacity);
      && Ok(after, n + 1) && after.held == m.held + multiset{n}
      && (n in after.cached <==> capacity > 0) && r !in after.cached
  {
    hide Ok, Evicted, Allocate, Uncache, Charges;
    AllocateOk(m, n, capacity > 0);
    var added := Allocate(m, n, capacity > 0);
    NewIs(m, n, capacity > 0, r);
    if r != NIL {
      UncacheOk(added, n + 1, r);
    }
    var first := if r == NIL then added else Uncache(added, r);
    var usage := Charges(charge, first.lru) + Charges(charge, first.inUse);
    var k := EvictedIs(first, n + 1, charge, usage, capacity);
    StillCached(first, Evicted(first, charge, usage, capacity).0, n + 1, n, r, k);
  }

  lemma NewIs(m: Model, n: nat, cache: bool, r: nat)
    requires n >= 2 && Ok(m, n) && (r == NIL || r in m.cached)
    ensures
      var added := Allocate(m, n, cache);
      var first := if r == NIL then added else Uncache(added, r);
      && (r != NIL ==> r in added.cached)
      && first.held == m.held + multiset{n} && (n in first.cached <==> cache) && r !in first.cached
  {
    hide Drop, NoDuplicates;
  }

  /** What eviction leaves of the entries in the cache. */
  lemma StillCached(first: Model, after: Model, n: nat, e: nat, r: nat, k: nat)
    requires Ok(first, n) && Ok(after, n) && k <= |first.lru| && after.lru == first.lru[k..]
    requires after.inUse == first.inUse && after.held == first.held && first.held[e] > 0 && r !in first.cached
    ensures (e in after.cached <==> e in first.cached) && r !in after.cached
  {
    hide NoDuplicates;
    assert forall h :: h in first.lru[k..] ==> h in first.lru;
  }

  lemma ChargesFirst(charge: seq<nat>, h: nat, s: seq<nat>)
    ensures Charges(charge, [h] + s) == ChargeOf(charge, h) + Charges(charge, s)
  {
    assert ([h] + s)[1..] == s;
  }

  datatype Op = DoAllocate(cache: bool) | DoHold(h: nat) | DoUnhold(h: nat) | DoUncache(h: nat)

  /** Clients hold entries that are in the cache or that they hold already, and give back what they hold. */
  ghost predicate Enabled(m: Model, op: Op) {
    match op
    case DoAllocate(_) => true
    case DoHold(h) => h in m.cached || h in m.held
    case DoUnhold(h) => h in m.held
    case DoUncache(h) => h in m.cached
  }

  ghost function Do(m: Model, n: nat, op: Op): Model {
    match op
    case DoAllocate(cache) => Allocate(m, n, cache)
    case DoHold(h) => Hold(m, h)
    case DoUnhold(h) => Unhold(m, h)
    case DoUncache(h) => Uncache(m, h)
  }

  ghost function Allocated(n: nat, op: Op): nat {
    if op.DoAllocate? then n + 1 else n
  }

  ghost predicate Runs(ops: seq<Op>, m: Model, n: nat, last: Model, lastN: nat)
    decreases |ops|
  {
    if ops == [] then m == last && n == lastN
    else Enabled(m, ops[0]) && Runs(ops[1..], Do(m, n, ops[0]), Allocated(n, ops[0]), last, lastN)
  }

  /** Whatever clients and the cache do, in any order: a handle is passed to its deleter exactly once, when neither a
      client nor the cache refers to it any more, and what was deleted stays deleted. */
  lemma {:induction false} DeletedOnce(ops: seq<Op>, m: Model, n: nat, last: Model, lastN: nat)
    requires n >= 2 && Ok(m, n) && Runs(ops, m, n, last, lastN)
    ensures Ok(last, lastN) && n <= lastN
    ensures m.deleted <= last.deleted
    ensures forall h: nat :: 2 <= h < lastN ==>
              multiset(last.deleted)[h] == if h !in last.cached && last.held[h] == 0 then 1 else 0
    decreases |ops|
  {
    if ops != [] {
      var op := ops[0];
      OkStep(m, n, op);
      assert m.deleted <= Do(m, n, op).deleted;
      DeletedOnce(ops[1..], Do(m, n, op), Allocated(n, op), last, lastN);
    } else {
      forall h: nat | 2 <= h < lastN
        ensures multiset(last.deleted)[h] == if h !in last.cached && last.held[h] == 0 then 1 else 0
      {
        OnceIn(last.deleted, h);
      }
    }
  }

  // ---------- the order of eviction ----------

  /** The last of these operations in which a client gave the handle back, or -1. */
  ghost function LastGiven(ops: seq<Op>, h: nat): int {
    if ops == [] then -1
    else if ops[|ops| - 1] == DoUnhold(h) then |ops| - 1
    else LastGiven(ops[..|ops| - 1], h)
  }

  ghost predicate ByAge(ops: seq<Op>, s: seq<nat>) {
    forall i, j :: 0 <= i < j < |s| ==> LastGiven(ops, s[i]) < LastGiven(ops, s[j])
  }

  lemma GivenNext(ops: seq<Op>, op: Op, h: nat)
    ensures LastGiven(ops + [op], h) == if op == DoUnhold(h) then |ops| else LastGiven(ops, h)
  {
    assert (ops + [op])[..|ops|] == ops;
  }

  lemma {:induction false} GivenBefore(ops: seq<Op>, h: nat)
    ensures LastGiven(ops, h) < |ops|
  {
    if ops != [] {
      GivenBefore(ops[..|ops| - 1], h);
    }
  }

  /** Another operation leaves the order of handles that it does not give back. */
  lemma AgeKept(ops: seq<Op>, op: Op, s: seq<nat>)
    requires ByAge(ops, s) && (op.DoUnhold? ==> op.h !in s)
    ensures ByAge(ops + [op], s)
  {
    hide LastGiven;
    forall i | 0 <= i < |s| ensures LastGiven(ops + [op], s[i]) == LastGiven(ops, s[i]) {
      GivenNext(ops, op, s[i]);
    }
  }

  lemma AgeAppended(ops: seq<Op>, s: seq<nat>, h: nat)
    requires ByAge(ops, s) && h !in s
    ensures ByAge(ops + [DoUnhold(h)], s + [h])
  {
    hide LastGiven;
    AgeKept(ops, DoUnhold(h), s);
    GivenNext(ops, DoUnhold(h), h);
    forall i | 0 <= i < |s| ensures LastGiven(ops + [DoUnhold(h)], s[i]) < |ops| {
      GivenNext(ops, DoUnhold(h), s[i]);
      GivenBefore(ops, s[i]);
    }
  }

  lemma AgeDropped(ops: seq<Op>, s: seq<nat>, h: nat)
    requires ByAge(ops, s) && NoDuplicates(s)
    ensures ByAge(ops, Drop(s, h))
  {
    hide LastGiven, Drop;
    if h in s {
      var i :| 0 <= i < |s| && s[i] == h;
      DropAt(s, i);
    } else {
      DropNothing(s, h);
    }
  }

  lemma AgeStep(ops: seq<Op>, m: Model, n: nat, op: Op)
    requires Ok(m, n) && Enabled(m, op) && ByAge(ops, m.lru)
    ensures ByAge(ops + [op], Do(m, n, op).lru)
  {
    hide LastGiven, Drop, ByAge;
    AgeDroppedAll(ops, m, n);
    match op
    case DoAllocate(_) => AgeKept(ops, op, m.lru);
    case DoHold(h) =>
      AgeKept(ops, op, m.lru);
      AgeKept(ops, op, Drop(m.lru, h));
    case DoUncache(h) => AgeKept(ops, op, Drop(m.lru, h));
    case DoUnhold(h) =>
      assert h !in m.lru;
      AgeKept(ops, op, m.lru);
      AgeAppended(ops, m.lru, h);
  }

  lemma AgeDroppedAll(ops: seq<Op>, m: Model, n: nat)
    requires Ok(m, n) && ByAge(ops, m.lru)
    ensures forall h :: ByAge(ops, Drop(m.lru, h))
  {
    hide ByAge;
    forall h ensures ByAge(ops, Drop(m.lru, h)) {
      AgeDropped(ops, m.lru, h);
    }
  }

  lemma OkStep(m: Model, n: nat, op: Op)
    requires n >= 2 && Ok(m, n) && Enabled(m, op)
    ensures Ok(Do(m, n, op), Allocated(n, op)) && Allocated(n, op) >= n
  {
    hide Ok, Hold, Unhold, Uncache, Allocate;
    match op
    case DoAllocate(cache) => AllocateOk(m, n, cache);
    case DoHold(h) => HoldOk(m, n, h);
    case DoUnhold(h) => UnholdOk(m, n, h);
    case DoUncache(h) => UncacheOk(m, n, h);
  }

  /** Whatever has been done, the unused entries are in the order in which clients last gave them back, so that eviction,
      which takes them from the front, takes the least recently used. */
  lemma {:induction false} LeastRecent(before: seq<Op>, ops: seq<Op>, m: Model, n: nat, last: Model, lastN: nat)
    requires n >= 2 && Ok(m, n) && ByAge(before, m.lru) && Runs(ops, m, n, last, lastN)
    ensures ByAge(before + ops, last.lru)
    decreases |ops|
  {
    hide Ok, Do, ByAge, Enabled;
    if ops == [] {
      assert before + ops == before;
    } else {
      AgeStep(before, m, n, ops[0]);
      OkStep(m, n, ops[0]);
      LeastRecent(before + [ops[0]], ops[1..], Do(m, n, ops[0]), Allocated(n, ops[0]), last, lastN);
      assert before + [ops[0]] + ops[1..] == before + ops;
    }
  }

  lemma {:induction false} OnceIn(s: seq<nat>, h: nat)
    requires NoDuplicates(s)
    ensures multiset(s)[h] == if h in s then 1 else 0
  {
    if s != [] {
      assert s == [s[0]] + s[1..] && s[0] !in s[1..];
      OnceIn(s[1..], h);
    }
  }
}
