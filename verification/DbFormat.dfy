/** Keys, entries and the write history: the vocabulary of the storage engine.

    The engine takes an arbitrary comparator, that is, a total order on byte strings.  Byte strings are
    countable, and every countable total order embeds in the rationals, so a user key is represented
    here by its position in the comparator's order.  Byte strings themselves, with the bytewise
    comparator, appear in module `Comparator`.
 */
module DbFormat {

  datatype Option<+T> = None | Some(value: T)

  type UserKey = real
  type Val = string

  datatype ValueType = Deletion | Value

  /** A parsed internal key: user key, sequence number, value type. */
  datatype InternalKey = InternalKey(user: UserKey, sn: nat, kind: ValueType)

  datatype Entry = Entry(key: InternalKey, val: Val)

  const MAX_SEQUENCE: nat := 0xFF_FFFF_FFFF_FFFF

  /** The packed 64-bit trailer: sequence number in the upper 56 bits, type in the lower 8. */
  function Tag(k: InternalKey): nat {
    k.sn * 256 + if k.kind.Value? then 1 else 0
  }

  /** Increasing user key, then decreasing trailer. */
  predicate Less(a: InternalKey, b: InternalKey) {
    a.user < b.user || (a.user == b.user && Tag(a) > Tag(b))
  }

  /** The key that a lookup of `user` at snapshot `s` seeks to. */
  function LookupKey(user: UserKey, s: nat): InternalKey {
    InternalKey(user, s, Value)
  }

  predicate Sorted(es: seq<Entry>) {
    forall i, j :: 0 <= i < j < |es| ==> Less(es[i].key, es[j].key)
  }

  /** Entry `e` is about `user` and old enough to be seen at snapshot `s`. */
  predicate Matches(e: Entry, user: UserKey, s: nat) {
    e.key.user == user && e.key.sn <= s
  }

  /** What a reader that stops at `e` reports. */
  function Shown(e: Entry): Option<Val> {
    if e.key.kind.Value? then Some(e.val) else None
  }

  // ---------- the specification: a history and the newest entry in it ----------

  /** Writes are numbered 1, 2, 3, ... in the order in which they were applied. */
  predicate History(h: seq<Entry>) {
    forall i :: 0 <= i < |h| ==> h[i].key.sn == i + 1
  }

  /** Reading `user` at snapshot `s`: the newest entry with sequence number at most `s` decides. */
  function Lookup(h: seq<Entry>, user: UserKey, s: nat): Option<Val> {
    if h == [] then None
    else if Matches(h[|h| - 1], user, s) then Shown(h[|h| - 1])
    else Lookup(h[..|h| - 1], user, s)
  }

  ghost predicate Newest(h: seq<Entry>, user: UserKey, s: nat, n: int) {
    && 0 <= n < |h|
    && Matches(h[n], user, s)
    && forall m :: n < m < |h| ==> !Matches(h[m], user, s)
  }

  lemma {:induction false} LookupIsNewest(h: seq<Entry>, user: UserKey, s: nat, n: int)
    requires Newest(h, user, s, n)
    ensures Lookup(h, user, s) == Shown(h[n])
  {
    if n < |h| - 1 {
      LookupIsNewest(h[..|h| - 1], user, s, n);
    }
  }

  lemma {:induction false} LookupFindsNothing(h: seq<Entry>, user: UserKey, s: nat)
    requires forall n :: 0 <= n < |h| ==> !Matches(h[n], user, s)
    ensures Lookup(h, user, s) == None
  {
    if h != [] {
      LookupFindsNothing(h[..|h| - 1], user, s);
    }
  }

  lemma {:induction false} NewestExists(h: seq<Entry>, user: UserKey, s: nat) returns (n: int)
    ensures -1 <= n < |h|
    ensures n >= 0 ==> Newest(h, user, s, n)
    ensures n < 0 ==> forall m :: 0 <= m < |h| ==> !Matches(h[m], user, s)
  {
    if h == [] {
      n := -1;
    } else if Matches(h[|h| - 1], user, s) {
      n := |h| - 1;
    } else {
      n := NewestExists(h[..|h| - 1], user, s);
    }
  }

  /** Entries written after snapshot `s` do not change what a reader at `s` sees. */
  lemma {:induction false} LookupIgnoresLater(h: seq<Entry>, later: seq<Entry>, user: UserKey, s: nat)
    requires History(h + later) && s <= |h|
    ensures Lookup(h + later, user, s) == Lookup(h, user, s)
  {
    if later == [] {
      assert h + later == h;
    } else {
      var front := later[..|later| - 1];
      assert (h + later)[..|h + later| - 1] == h + front;
      LookupIgnoresLater(h, front, user, s);
    }
  }
}
