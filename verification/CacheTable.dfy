/** The hash table of the block and table caches (util/cache.cc, lines 69-147): buckets of singly linked handles.

    A handle is an index; the fields of its record are kept by the structure that uses them, `next_hash` here. */
module CacheTable {
  import opened Coding

  /** The key of a handle and its hash, fixed when it is allocated. */
  datatype Ident = Ident(key: Bytes, hash: nat)

  /** The null pointer. Handles 0 and 1 are the heads of the lists of the cache. */
  const NIL: nat := 0

  /** `LRUHandle**`: the place that holds a pointer. */
  datatype Place = Bucket(b: nat) | NextHash(h: nat)

  /** Element `i` of a chain, or the null pointer at its end. */
  function At(chain: seq<nat>, i: nat): nat {
    if i < |chain| then chain[i] else NIL
  }

  predicate Linked(next: seq<nat>, chain: seq<nat>, i: nat)
    requires i < |chain|
  {
    NIL < chain[i] < |next| && next[chain[i]] == At(chain, i + 1)
  }

  predicate Chained(next: seq<nat>, head: nat, chain: seq<nat>) {
    && head == At(chain, 0)
    && (forall i :: 0 <= i < |chain| ==> Linked(next, chain, i))
    && NoDuplicates(chain)
  }

  predicate NoDuplicates(chain: seq<nat>) {
    forall i, j :: 0 <= i < j < |chain| ==> chain[i] != chain[j]
  }

  /** Every handle of the chain belongs in bucket `b`. */
  predicate Hashes(idents: seq<Ident>, length: nat, b: nat, chain: seq<nat>)
    requires length > 0
  {
    forall i :: 0 <= i < |chain| ==> chain[i] < |idents| && idents[chain[i]].hash % length == b
  }

  predicate BucketOk(idents: seq<Ident>, next: seq<nat>, heads: seq<nat>, chains: seq<seq<nat>>, b: nat)
    requires |heads| == |chains| && b < |heads|
  {
    Chained(next, heads[b], chains[b]) && Hashes(idents, |heads|, b, chains[b])
  }

  /** The buckets hold exactly the handles of `members`. */
  ghost predicate Buckets(idents: seq<Ident>, next: seq<nat>, heads: seq<nat>, chains: seq<seq<nat>>, members: set<nat>)
  {
    && |heads| == |chains| > 0
    && |next| == |idents|
    && (forall b :: 0 <= b < |heads| ==> BucketOk(idents, next, heads, chains, b))
    && (forall b, h :: 0 <= b < |chains| && h in chains[b] ==> h in members)
    && forall h :: h in members ==> h < |idents| && h in chains[idents[h].hash % |chains|]
  }

  /** The number of buckets is a power of two, so that masking the hash gives its remainder. */
  predicate PowerOfTwo(n: nat) {
    n == 1 || (n > 0 && n % 2 == 0 && PowerOfTwo(n / 2))
  }

  predicate Distinct(idents: seq<Ident>, members: set<nat>) {
    forall a, b :: a in members && b in members && a < |idents| && b < |idents| && idents[a] == idents[b] ==> a == b
  }

  // ---------- changing a chain ----------

  /** The pointers of other chains are not touched by a change to `h`. */
  lemma OtherChain(next: seq<nat>, head: nat, chain: seq<nat>, h: nat, v: nat)
    requires Chained(next, head, chain) && h < |next| && h !in chain
    ensures Chained(next[h := v], head, chain)
  {
    var after := next[h := v];
    forall i | 0 <= i < |chain| ensures Linked(after, chain, i) {
      assert Linked(next, chain, i);
      assert chain[i] in chain;
    }
  }

  /** `*ptr = (*ptr)->next_hash` at position `i`. */
  lemma ChainRemoved(next: seq<nat>, head: nat, chain: seq<nat>, i: nat)
    requires Chained(next, head, chain) && i < |chain|
    ensures
      var v := At(chain, i + 1);
      var shorter := chain[..i] + chain[i + 1..];
      if i == 0 then Chained(next, v, shorter)
      else chain[i - 1] < |next| && Chained(next[chain[i - 1] := v], head, shorter)
  {
    var shorter := chain[..i] + chain[i + 1..];
    if i > 0 {
      assert Linked(next, chain, i - 1);
    }
    var after := if i == 0 then next else next[chain[i - 1] := At(chain, i + 1)];
    forall k | 0 <= k < |shorter| ensures Linked(after, shorter, k)
    {
      assert Linked(next, chain, if k < i then k else k + 1);
    }
  }

  /** `h->next_hash = after; *ptr = h` at position `i`, in place of the element there if there is one. */
  lemma ChainReplaced(next: seq<nat>, head: nat, chain: seq<nat>, i: nat, h: nat)
    requires Chained(next, head, chain) && i <= |chain| && NIL < h < |next| && h !in chain
    ensures
      var after := next[h := At(chain, i + 1)];
      var longer := Put(chain, i, h);
      if i == 0 then Chained(after, h, longer)
      else chain[i - 1] < |next| && Chained(after[chain[i - 1] := h], head, longer)
  {
    var after := next[h := At(chain, i + 1)];
    var longer := Put(chain, i, h);
    if i > 0 {
      assert Linked(next, chain, i - 1);
    }
    var last := if i == 0 then after else after[chain[i - 1] := h];
    forall k | 0 <= k < |longer| ensures Linked(last, longer, k)
    {
      if k != i {
        var j := if k < i then k else if i < |chain| then k else k - 1;
        assert Linked(next, chain, j) && chain[j] in chain;
      }
    }
  }

  /** `h->next_hash = *ptr; *ptr = h` at the front. */
  lemma ChainPushed(next: seq<nat>, head: nat, chain: seq<nat>, h: nat)
    requires Chained(next, head, chain) && NIL < h < |next| && h !in chain
    ensures Chained(next[h := head], h, [h] + chain)
  {
    var longer := [h] + chain;
    var after := next[h := head];
    forall k | 0 <= k < |longer| ensures Linked(after, longer, k) {
      if k > 0 {
        assert Linked(next, chain, k - 1) && chain[k - 1] in chain;
      }
    }
  }

  // ---------- changing one bucket ----------

  /** `h` is not in the table. */
  lemma BucketsChanged(idents: seq<Ident>, next: seq<nat>, heads: seq<nat>, chains: seq<seq<nat>>, members: set<nat>,
                       b: nat, after: seq<nat>, head: nat, chain: seq<nat>, members': set<nat>)
    requires Buckets(idents, next, heads, chains, members) && b < |heads| && |after| == |next|
    requires Chained(after, head, chain) && Hashes(idents, |heads|, b, chain)
    requires forall c :: 0 <= c < |heads| && c != b ==> Chained(after, heads[c], chains[c])
    requires forall h :: h in members' ==> h < |idents|
    requires forall h :: 0 <= h < |idents| && idents[h].hash % |heads| == b ==> (h in members' <==> h in chain)
    requires forall h :: 0 <= h < |idents| && idents[h].hash % |heads| != b ==> (h in members' <==> h in members)
    ensures Buckets(idents, after, heads[b := head], chains[b := chain], members')
  {
    var heads', chains' := heads[b := head], chains[b := chain];
    forall c | 0 <= c < |heads'| ensures BucketOk(idents, after, heads', chains', c) {
      assert BucketOk(idents, next, heads, chains, c);
    }
    forall c, h | 0 <= c < |chains'| && h in chains'[c] ensures h in members' {
      assert BucketOk(idents, after, heads', chains', c);
      if c != b {
        assert h in chains[c];
      }
    }
  }

  // ---------- moving every handle to other buckets ----------

  /** The buckets before `i`, and the first `k` handles of bucket `i`, have moved from `chains` to the new buckets. */
  ghost predicate Moving(idents: seq<Ident>, next: seq<nat>, heads: seq<nat>, chains: seq<seq<nat>>, members: set<nat>,
                         heads': seq<nat>, chains': seq<seq<nat>>, moved: set<nat>, i: nat, k: nat)
  {
    && Buckets(idents, next, heads', chains', moved)
    && |heads| == |chains| > 0 && i <= |chains|
    && (forall c :: i < c < |chains| ==> Chained(next, heads[c], chains[c]))
    && (i < |chains| ==> heads[i] == At(chains[i], 0))
    && (i < |chains| ==> k <= |chains[i]| && Chained(next, At(chains[i], k), chains[i][k..]))
    && (forall c :: 0 <= c < |chains| ==> Hashes(idents, |chains|, c, chains[c]) && NoDuplicates(chains[c]))
    && (forall c, h :: 0 <= c < |chains| && h in chains[c] ==> h in members)
    && (forall h :: h in members ==> h < |idents| && h in chains[idents[h].hash % |chains|])
    && moved <= members
    && forall h :: h in members ==> (h in moved <==> HasMoved(idents, chains, h, i, k))
  }

  ghost predicate HasMoved(idents: seq<Ident>, chains: seq<seq<nat>>, h: nat, i: nat, k: nat)
    requires |chains| > 0 && h < |idents|
  {
    var b := idents[h].hash % |chains|;
    b < i || (b == i && k <= |chains[i]| && h in chains[i][..k])
  }

  lemma MovingStarts(idents: seq<Ident>, next: seq<nat>, heads: seq<nat>, chains: seq<seq<nat>>, members: set<nat>,
                     heads': seq<nat>, chains': seq<seq<nat>>)
    requires Buckets(idents, next, heads, chains, members)
    requires |heads'| == |chains'| > 0
    requires forall b :: 0 <= b < |heads'| ==> heads'[b] == NIL && chains'[b] == []
    ensures Moving(idents, next, heads, chains, members, heads', chains', {}, 0, 0)
  {
    forall c | 0 <= c < |chains|
      ensures Chained(next, heads[c], chains[c]) && Hashes(idents, |chains|, c, chains[c])
    {
      assert BucketOk(idents, next, heads, chains, c);
    }
    assert chains[0][0..] == chains[0];
    forall b | 0 <= b < |heads'| ensures BucketOk(idents, next, heads', chains', b) {
    }
  }

  lemma ChainTail(next: seq<nat>, head: nat, chain: seq<nat>)
    requires Chained(next, head, chain) && chain != []
    ensures Chained(next, At(chain, 1), chain[1..])
  {
    var tail := chain[1..];
    forall i | 0 <= i < |tail| ensures Linked(next, tail, i) {
      assert Linked(next, chain, i + 1);
    }
  }

  /** The handle to move is in no other bucket. */
  lemma ToMove(idents: seq<Ident>, next: seq<nat>, heads: seq<nat>, chains: seq<seq<nat>>, members: set<nat>,
               heads': seq<nat>, chains': seq<seq<nat>>, moved: set<nat>, i: nat, k: nat)
    requires Moving(idents, next, heads, chains, members, heads', chains', moved, i, k)
    requires i < |chains| && k < |chains[i]|
    ensures
      var h := chains[i][k];
      && NIL < h < |next| == |idents|
      && next[h] == At(chains[i], k + 1)
      && h in members && h !in moved
      && idents[h].hash % |chains| == i
      && (forall c :: 0 <= c < |chains'| ==> h !in chains'[c])
      && (forall c :: i < c < |chains| ==> h !in chains[c])
      && chains[i][k..][0] == h && h !in chains[i][k..][1..]
  {
    var h, rest := chains[i][k], chains[i][k..];
    assert rest[0] == h && Linked(next, rest, 0);
    assert h in chains[i] && Hashes(idents, |chains|, i, chains[i]);
    assert h !in chains[i][..k];
    assert h in members && !HasMoved(idents, chains, h, i, k);
    forall c | i < c < |chains| ensures h !in chains[c] {
      assert Hashes(idents, |chains|, c, chains[c]);
    }
  }

  /** What is left of the old buckets. */
  lemma MoveRest(idents: seq<Ident>, next: seq<nat>, heads: seq<nat>, chains: seq<seq<nat>>, members: set<nat>,
                 heads': seq<nat>, chains': seq<seq<nat>>, moved: set<nat>, i: nat, k: nat, v: nat)
    requires Moving(idents, next, heads, chains, members, heads', chains', moved, i, k)
    requires i < |chains| && k < |chains[i]|
    ensures
      var h := chains[i][k];
      && h < |next|
      && var after := next[h := v];
         && (forall c :: i < c < |chains| ==> Chained(after, heads[c], chains[c]))
         && Chained(after, At(chains[i], k + 1), chains[i][k + 1..])
  {
    var h, rest := chains[i][k], chains[i][k..];
    ToMove(idents, next, heads, chains, members, heads', chains', moved, i, k);
    ChainTail(next, h, rest);
    assert rest[1..] == chains[i][k + 1..];
    OtherChain(next, At(rest, 1), rest[1..], h, v);
    var after := next[h := v];
    forall c | i < c < |chains| ensures Chained(after, heads[c], chains[c]) {
      OtherChain(next, heads[c], chains[c], h, v);
    }
  }

  lemma MovedOne(idents: seq<Ident>, chains: seq<seq<nat>>, i: nat, k: nat, h: nat)
    requires i < |chains| && k < |chains[i]| && h < |idents|
    requires chains[i][k] < |idents| && idents[chains[i][k]].hash % |chains| == i
    ensures HasMoved(idents, chains, h, i, k + 1) <==> HasMoved(idents, chains, h, i, k) || h == chains[i][k]
  {
    assert chains[i][..k + 1] == chains[i][..k] + [chains[i][k]];
  }

  /** The new bucket of the handle. */
  lemma MoveIn(idents: seq<Ident>, next: seq<nat>, heads: seq<nat>, chains: seq<seq<nat>>, members: set<nat>,
               heads': seq<nat>, chains': seq<seq<nat>>, moved: set<nat>, i: nat, k: nat)
    requires Moving(idents, next, heads, chains, members, heads', chains', moved, i, k)
    requires i < |chains| && k < |chains[i]|
    ensures
      var h := chains[i][k];
      && h < |next| == |idents|
      && var b := idents[h].hash % |heads'|;
         Buckets(idents, next[h := heads'[b]], heads'[b := h], chains'[b := [h] + chains'[b]], moved + {h})
  {
    var h := chains[i][k];
    ToMove(idents, next, heads, chains, members, heads', chains', moved, i, k);
    var b := idents[h].hash % |heads'|;
    var after := next[h := heads'[b]];
    assert BucketOk(idents, next, heads', chains', b);
    ChainPushed(next, heads'[b], chains'[b], h);
    forall c | 0 <= c < |heads'| && c != b ensures Chained(after, heads'[c], chains'[c]) {
      assert BucketOk(idents, next, heads', chains', c);
      OtherChain(next, heads'[c], chains'[c], h, heads'[b]);
    }
    BucketsChanged(idents, next, heads', chains', moved, b, after, h, [h] + chains'[b], moved + {h});
  }

  /** `h->next_hash = *ptr; *ptr = h; h = next`. */
  lemma MoveOne(idents: seq<Ident>, next: seq<nat>, heads: seq<nat>, chains: seq<seq<nat>>, members: set<nat>,
                heads': seq<nat>, chains': seq<seq<nat>>, moved: set<nat>, i: nat, k: nat)
    requires Moving(idents, next, heads, chains, members, heads', chains', moved, i, k)
    requires i < |chains| && k < |chains[i]|
    ensures
      var h := chains[i][k];
      && NIL < h < |next| == |idents|
      && next[h] == At(chains[i], k + 1)
      && h !in moved
      && var b := idents[h].hash % |heads'|;
         Moving(idents, next[h := heads'[b]], heads, chains, members, heads'[b := h], chains'[b := [h] + chains'[b]],
                moved + {h}, i, k + 1)
  {
    hide Buckets, Chained, HasMoved, Hashes, NoDuplicates;
    var h := chains[i][k];
    ToMove(idents, next, heads, chains, members, heads', chains', moved, i, k);
    NewBuckets(idents, next, heads', chains', moved);
    MoveRest(idents, next, heads, chains, members, heads', chains', moved, i, k, heads'[idents[h].hash % |heads'|]);
    MoveIn(idents, next, heads, chains, members, heads', chains', moved, i, k);
    forall x | x in members ensures x in moved + {h} <==> HasMoved(idents, chains, x, i, k + 1) {
      MovedOne(idents, chains, i, k, x);
    }
  }

  lemma NewBuckets(idents: seq<Ident>, next: seq<nat>, heads: seq<nat>, chains: seq<seq<nat>>, members: set<nat>)
    requires Buckets(idents, next, heads, chains, members)
    ensures |heads| == |chains| > 0 && |next| == |idents|
  {
  }

  lemma MoveBucket(idents: seq<Ident>, next: seq<nat>, heads: seq<nat>, chains: seq<seq<nat>>, members: set<nat>,
                   heads': seq<nat>, chains': seq<seq<nat>>, moved: set<nat>, i: nat)
    requires i < |chains|
    requires Moving(idents, next, heads, chains, members, heads', chains', moved, i, |chains[i]|)
    ensures Moving(idents, next, heads, chains, members, heads', chains', moved, i + 1, 0)
  {
    assert chains[i][..|chains[i]|] == chains[i];
    if i + 1 < |chains| {
      assert chains[i + 1][0..] == chains[i + 1];
    }
    forall h | h in members ensures h in moved <==> HasMoved(idents, chains, h, i + 1, 0) {
      assert h in moved <==> HasMoved(idents, chains, h, i, |chains[i]|);
    }
  }

  /** The pointer at the head of bucket `i`; in the loop, it is null exactly at the end of the chain. */
  lemma MovingHead(idents: seq<Ident>, next: seq<nat>, heads: seq<nat>, chains: seq<seq<nat>>, members: set<nat>,
                   heads': seq<nat>, chains': seq<seq<nat>>, moved: set<nat>, i: nat, k: nat)
    requires Moving(idents, next, heads, chains, members, heads', chains', moved, i, k) && i < |chains|
    ensures |heads| == |chains| && k <= |chains[i]| && heads[i] == At(chains[i], 0)
    ensures At(chains[i], k) == NIL <==> k == |chains[i]|
    ensures |next| == |idents| && |heads'| == |chains'| > 0
  {
    var rest := chains[i][k..];
    if k < |chains[i]| {
      assert Linked(next, rest, 0) && rest[0] == chains[i][k];
    }
  }

  lemma MovingDone(idents: seq<Ident>, next: seq<nat>, heads: seq<nat>, chains: seq<seq<nat>>, members: set<nat>,
                   heads': seq<nat>, chains': seq<seq<nat>>, moved: set<nat>)
    requires Moving(idents, next, heads, chains, members, heads', chains', moved, |chains|, 0)
    ensures moved == members && Buckets(idents, next, heads', chains', members)
  {
    forall h | h in members ensures h in moved {
      assert HasMoved(idents, chains, h, |chains|, 0);
    }
  }

  lemma SizeAfter(members: set<nat>, replaced: nat, h: nat)
    requires h !in members && NIL !in members && (replaced == NIL || replaced in members)
    ensures |members - {replaced} + {h}| == |members| + if replaced == NIL then 1 else 0
  {
    if replaced == NIL {
      assert members - {replaced} == members;
    }
  }

  class HandleTable {
    var length: nat
    var elems: nat
    var list: seq<nat>
    var idents: seq<Ident>
    var nextHash: seq<nat>
    ghost var chains: seq<seq<nat>>
    ghost var members: set<nat>

    ghost predicate Valid()
      reads this
    {
      && length == |list| > 0 && PowerOfTwo(length)
      && elems == |members|
      && Buckets(idents, nextHash, list, chains, members)
      && Distinct(idents, members)
    }

    /** Two handles, the heads of the lists of the cache, are never in the table. */
    constructor ()
      ensures Valid() && members == {} && |idents| == 2 && elems <= length
    {
      length, elems, list := 4, 0, [NIL, NIL, NIL, NIL];
      idents, nextHash := [Ident([], 0), Ident([], 0)], [NIL, NIL];
      chains, members := [[], [], [], []], {};
      new;
      assert PowerOfTwo(1) && PowerOfTwo(2);
      forall b | 0 <= b < |list| ensures BucketOk(idents, nextHash, list, chains, b) {
        assert chains[b] == [];
      }
    }

    predicate Holds(h: nat, key: Bytes, hash: nat)
      reads this
    {
      h < |idents| && idents[h] == Ident(key, hash)
    }

    /** `h` is the handle with this key, or null when there is none. */
    ghost predicate IsAnswer(h: nat, key: Bytes, hash: nat)
      reads this
    {
      if h == NIL then forall m :: m in members ==> !Holds(m, key, hash)
      else h in members && Holds(h, key, hash)
    }

    predicate Loadable(p: Place)
      reads this
    {
      match p
      case Bucket(b) => b < |list|
      case NextHash(h) => h < |nextHash|
    }

    function Load(p: Place): nat
      requires Loadable(p)
      reads this
    {
      match p
      case Bucket(b) => list[b]
      case NextHash(h) => nextHash[h]
    }

    /** The place of the pointer to element `i` of bucket `b`. */
    ghost function PlaceOf(b: nat, i: nat): Place
      requires b < |chains| && i <= |chains[b]|
      reads this
    {
      if i == 0 then Bucket(b) else NextHash(chains[b][i - 1])
    }

    method Store(p: Place, v: nat)
      requires Loadable(p)
      modifies this`list, this`nextHash
      ensures list == if p.Bucket? then old(list)[p.b := v] else old(list)
      ensures nextHash == if p.NextHash? then old(nextHash)[p.h := v] else old(nextHash)
    {
      match p
      case Bucket(b) => list := list[b := v];
      case NextHash(h) => nextHash := nextHash[h := v];
    }

    method FindPointer(key: Bytes, hash: nat) returns (ptr: Place, ghost i: nat)
      requires Valid()
      ensures hash % length < |chains| && i <= |chains[hash % length]| && ptr == PlaceOf(hash % length, i)
      ensures Loadable(ptr) && Load(ptr) == At(chains[hash % length], i)
      ensures IsAnswer(At(chains[hash % length], i), key, hash)
    {
      hide PowerOfTwo, Distinct, Hashes, NoDuplicates;
      ghost var b := hash % length;
      ghost var chain := chains[b];
      assert BucketOk(idents, nextHash, list, chains, b);
      ptr, i := Bucket(hash % length), 0;
      while Load(ptr) != NIL && idents[Load(ptr)] != Ident(key, hash)
        invariant i <= |chain| && ptr == PlaceOf(b, i) && Loadable(ptr) && Load(ptr) == At(chain, i)
        invariant i < |chain| ==> Linked(nextHash, chain, i)
        invariant forall j :: 0 <= j < i ==> !Holds(chain[j], key, hash)
        decreases |chain| - i
      {
        ptr, i := NextHash(Load(ptr)), i + 1;
      }
      FoundOrNot(key, hash, i);
    }

    lemma FoundOrNot(key: Bytes, hash: nat, i: nat)
      requires Valid()
      requires i <= |chains[hash % length]|
      requires i < |chains[hash % length]| ==> Holds(chains[hash % length][i], key, hash)
      requires forall j :: 0 <= j < i ==> !Holds(chains[hash % length][j], key, hash)
      ensures IsAnswer(At(chains[hash % length], i), key, hash)
    {
      var b := hash % length;
      assert BucketOk(idents, nextHash, list, chains, b);
      if i < |chains[b]| {
        assert Linked(nextHash, chains[b], i) && chains[b][i] in chains[b];
      }
    }

    lemma MembersAllocated()
      requires Valid()
      ensures NIL !in members && forall h :: h in members ==> h < |idents|
    {
      NilMember(idents, nextHash, list, chains, members);
    }

    method Lookup(key: Bytes, hash: nat) returns (h: nat)
      requires Valid()
      ensures IsAnswer(h, key, hash)
    {
      var ptr, i := FindPointer(key, hash);
      h := Load(ptr);
    }

    /** `malloc` for a new handle. */
    method Allocate(key: Bytes, hash: nat) returns (h: nat)
      requires Valid()
      modifies this`idents, this`nextHash
      ensures Valid() && h == |old(idents)| && h !in members
      ensures idents == old(idents) + [Ident(key, hash)]
    {
      h := |idents|;
      idents, nextHash := idents + [Ident(key, hash)], nextHash + [NIL];
      forall b | 0 <= b < |list| ensures BucketOk(idents, nextHash, list, chains, b) {
        assert old(BucketOk(idents, nextHash, list, chains, b));
        forall i | 0 <= i < |chains[b]| ensures Linked(nextHash, chains[b], i) {
          assert Linked(old(nextHash), chains[b], i);
        }
      }
    }

    method NewLength() returns (newLength: nat)
      ensures PowerOfTwo(newLength) && newLength > 0 && elems <= newLength && (newLength == 4 || newLength < 2 * elems)
    {
      newLength := 4;
      FourIsPower();
      while newLength < elems
        invariant PowerOfTwo(newLength) && newLength > 0 && (newLength == 4 || newLength < 2 * elems)
      {
        newLength := newLength * 2;
      }
    }

    /** Doubles the number of buckets until there are as many as handles, and moves every handle. */
    method Resize()
      requires Valid()
      modifies this`length, this`list, this`nextHash, this`chains
      ensures Valid() && elems <= length && (length == 4 || length < 2 * elems)
    {
      hide Buckets, Moving, Distinct, PowerOfTwo, HandleTable.Valid;
      Shape();
      var newLength := NewLength();
      var newList: seq<nat> := seq(newLength, _ => NIL);
      ghost var newChains: seq<seq<nat>> := seq(newLength, _ => []);
      ghost var moved: set<nat> := {};
      var count, i := 0, 0;
      MovingStarts(idents, nextHash, list, chains, members, newList, newChains);
      while i < length
        invariant length == |list| == |chains| && i <= length && |newList| == newLength
        invariant list == old(list) && chains == old(chains)
        invariant Moving(idents, nextHash, list, chains, members, newList, newChains, moved, i, 0)
        invariant count == |moved|
      {
        var h := list[i];
        ghost var k := 0;
        MovingHead(idents, nextHash, list, chains, members, newList, newChains, moved, i, k);
        while h != NIL
          invariant list == old(list) && length == |list| && chains == old(chains) && |newList| == newLength
          invariant k <= |chains[i]| && h == At(chains[i], k)
          invariant Moving(idents, nextHash, list, chains, members, newList, newChains, moved, i, k)
          invariant count == |moved|
          decreases |chains[i]| - k
        {
          MovingHead(idents, nextHash, list, chains, members, newList, newChains, moved, i, k);
          MoveOne(idents, nextHash, list, chains, members, newList, newChains, moved, i, k);
          var next := nextHash[h];
          var b := idents[h].hash % newLength;
          nextHash := nextHash[h := newList[b]];
          newList := newList[b := h];
          newChains, moved, k := newChains[b := [h] + newChains[b]], moved + {h}, k + 1;
          h := next;
          count := count + 1;
        }
        MovingHead(idents, nextHash, list, chains, members, newList, newChains, moved, i, k);
        MoveBucket(idents, nextHash, list, chains, members, newList, newChains, moved, i);
        i := i + 1;
      }
      MovingDone(idents, nextHash, list, chains, members, newList, newChains, moved);
      list, length, chains := newList, newLength, newChains;
      ShapeIsValid();
    }

    lemma Shape()
      requires Valid()
      ensures length == |list| > 0 && PowerOfTwo(length) && elems == |members|
      ensures Buckets(idents, nextHash, list, chains, members) && Distinct(idents, members)
    {
      hide Buckets, Distinct, PowerOfTwo;
    }

    lemma ShapeIsValid()
      requires length == |list| > 0 && PowerOfTwo(length) && elems == |members|
      requires Buckets(idents, nextHash, list, chains, members) && Distinct(idents, members)
      ensures Valid()
    {
      hide Buckets, Distinct, PowerOfTwo;
    }

    lemma FourIsPower()
      ensures PowerOfTwo(4)
    {
      assert PowerOfTwo(1) && PowerOfTwo(2);
    }

    /** Adds a handle.  There stay as many buckets as handles, so that their lists have one handle on average. */
    method Insert(h: nat) returns (replaced: nat)
      requires Valid() && NIL < h < |idents| && h !in members
      modifies this`length, this`elems, this`list, this`nextHash, this`chains, this`members
      ensures Valid()
      ensures old(elems <= length) ==> elems <= length
      ensures if replaced != NIL || old(elems < length) then length == old(length)
              else length == 4 || length < 2 * elems
      ensures old(IsAnswer(replaced, idents[h].key, idents[h].hash))
      ensures members == old(members) - {replaced} + {h}
    {
      hide HandleTable.Valid, HandleTable.IsAnswer;
      replaced := Link(h);
      if replaced == NIL && elems > length {
        Resize();
      }
    }

    /** Stores the handle in its bucket and counts it. */
    method Link(h: nat) returns (replaced: nat)
      requires Valid() && NIL < h < |idents| && h !in members
      modifies this`elems, this`list, this`nextHash, this`chains, this`members
      ensures Valid() && elems == old(elems) + if replaced == NIL then 1 else 0
      ensures old(IsAnswer(replaced, idents[h].key, idents[h].hash))
      ensures members == old(members) - {replaced} + {h}
    {
      hide Buckets, Distinct, PowerOfTwo, At, HandleTable.IsAnswer, HandleTable.Valid;
      Shape();
      var ptr, i := FindPointer(idents[h].key, idents[h].hash);
      replaced := Load(ptr);
      StillDistinct(replaced, h);
      SizeAfter(members, replaced, h);
      ghost var after := members - {replaced} + {h};
      assert Distinct(idents, after);
      StoreHandle(ptr, i, h);
      members := after;
      elems := if replaced == NIL then elems + 1 else elems;
      ShapeIsValid();
    }

    /** The two stores: the handle takes over the pointer of the one it replaces, and is pointed to. */
    method StoreHandle(ptr: Place, ghost i: nat, h: nat)
      requires Valid() && NIL < h < |idents| && h !in members
      requires i <= |chains[idents[h].hash % length]| && ptr == PlaceOf(idents[h].hash % length, i)
      requires Loadable(ptr) && Load(ptr) == At(chains[idents[h].hash % length], i)
      modifies this`list, this`nextHash, this`chains
      ensures |list| == old(|list|)
      ensures Buckets(idents, nextHash, list, chains, members - {old(Load(ptr))} + {h})
    {
      hide Buckets, Linked, Distinct, PowerOfTwo, Put, At;
      ghost var b := idents[h].hash % length;
      InRange(idents[h].hash, i);
      var replaced := Load(ptr);
      nextHash := nextHash[h := if replaced == NIL then NIL else nextHash[replaced]];
      Store(ptr, h);
      InsertedBucket(old(idents), old(nextHash), old(list), old(chains), old(members), b, i, h, nextHash, list);
      chains := chains[b := Put(chains[b], i, h)];
    }

    /** A new handle takes the place of the one with its key. */
    lemma StillDistinct(replaced: nat, h: nat)
      requires Valid() && h < |idents| && IsAnswer(replaced, idents[h].key, idents[h].hash)
      ensures Distinct(idents, members - {replaced} + {h})
      ensures replaced != NIL ==> replaced in members
      ensures NIL !in members
    {
      NilMember(idents, nextHash, list, chains, members);
    }

    /** What position `i` of a bucket and the handle before it have in their `next_hash`. */
    lemma InRange(hash: nat, i: nat)
      requires Valid() && i <= |chains[hash % length]|
      ensures |nextHash| == |idents| && |list| == |chains| == length && NIL !in members
      ensures
        var chain := chains[hash % length];
        && (i < |chain| ==> NIL < chain[i] < |nextHash| && nextHash[chain[i]] == At(chain, i + 1))
        && (if At(chain, i) == NIL then At(chain, i + 1) == NIL else i < |chain| && At(chain, i) == chain[i])
        && (i > 0 ==> NIL < chain[i - 1] < |nextHash|)
        && (forall j :: 0 <= j < |chain| ==> chain[j] in members)
    {
      var b := hash % length;
      NilMember(idents, nextHash, list, chains, members);
      assert BucketOk(idents, nextHash, list, chains, b);
      if i < |chains[b]| {
        assert Linked(nextHash, chains[b], i);
      }
      if i > 0 {
        assert Linked(nextHash, chains[b], i - 1);
      }
    }

    method Remove(key: Bytes, hash: nat) returns (removed: nat)
      requires Valid()
      modifies this`elems, this`list, this`nextHash, this`chains, this`members
      ensures Valid() && elems <= old(elems)
      ensures old(IsAnswer(removed, key, hash))
      ensures members == old(members) - {removed}
    {
      hide Buckets, Distinct, PowerOfTwo, At, HandleTable.IsAnswer, HandleTable.Valid;
      Shape();
      var ptr, i := FindPointer(key, hash);
      removed := Load(ptr);
      MembersAllocated();
      if removed != NIL {
        FewerDistinct(removed, key, hash);
        StoreNext(ptr, i, hash);
        members := members - {removed};
        elems := elems - 1;
        ShapeIsValid();
      }
    }

    /** The store that takes a handle out of its bucket. */
    method StoreNext(ptr: Place, ghost i: nat, ghost hash: nat)
      requires Valid() && i <= |chains[hash % length]| && ptr == PlaceOf(hash % length, i)
      requires Loadable(ptr) && NIL != Load(ptr) == At(chains[hash % length], i)
      modifies this`list, this`nextHash, this`chains
      ensures |list| == old(|list|)
      ensures Buckets(idents, nextHash, list, chains, members - {old(Load(ptr))})
    {
      hide Buckets, Linked, Distinct, PowerOfTwo, At, Without;
      ghost var b := hash % length;
      InRange(hash, i);
      var removed := Load(ptr);
      Store(ptr, nextHash[removed]);
      RemovedBucket(old(idents), old(nextHash), old(list), old(chains), old(members), b, i, nextHash, list);
      chains := chains[b := Without(chains[b], i)];
    }

    lemma FewerDistinct(removed: nat, key: Bytes, hash: nat)
      requires Valid() && removed != NIL && IsAnswer(removed, key, hash)
      ensures Distinct(idents, members - {removed}) && removed in members
    {
      hide Buckets;
    }
  }

  /** The chain with `h` put at position `i`, in place of the element there if there is one. */
  function Put(chain: seq<nat>, i: nat, h: nat): seq<nat>
    requires i <= |chain|
  {
    chain[..i] + [h] + chain[if i < |chain| then i + 1 else i..]
  }

  lemma PutMembers(chain: seq<nat>, i: nat, h: nat, x: nat)
    requires i <= |chain| && NoDuplicates(chain) && NIL !in chain
    ensures x in Put(chain, i, h) <==> x == h || (x in chain && x != At(chain, i))
  {
    var last := if i < |chain| then i + 1 else i;
    assert chain == chain[..i] + chain[i..last] + chain[last..];
    if i < |chain| {
      assert chain[i..last] == [chain[i]];
      assert chain[i] !in chain[..i] && chain[i] !in chain[last..];
    }
  }

  lemma NilNotIn(next: seq<nat>, head: nat, chain: seq<nat>)
    requires Chained(next, head, chain)
    ensures NIL !in chain
  {
    forall i | 0 <= i < |chain| ensures chain[i] != NIL {
      assert Linked(next, chain, i);
    }
  }

  lemma PutHashes(idents: seq<Ident>, length: nat, b: nat, chain: seq<nat>, i: nat, h: nat)
    requires length > 0 && Hashes(idents, length, b, chain) && i <= |chain|
    requires h < |idents| && idents[h].hash % length == b
    ensures Hashes(idents, length, b, Put(chain, i, h))
  {
    var longer := Put(chain, i, h);
    forall k | 0 <= k < |longer| ensures longer[k] < |idents| && idents[longer[k]].hash % length == b {
      if k > i {
        assert longer[k] == chain[if i < |chain| then k else k - 1];
      }
    }
  }

  lemma InsertedBucket(idents: seq<Ident>, next: seq<nat>, heads: seq<nat>, chains: seq<seq<nat>>, members: set<nat>,
                       b: nat, i: nat, h: nat, after: seq<nat>, heads': seq<nat>)
    requires Buckets(idents, next, heads, chains, members)
    requires h < |idents| && h !in members && b == idents[h].hash % |heads| && i <= |chains[b]| && NIL < h < |next|
    requires
      var chain := chains[b];
      var first := next[h := At(chain, i + 1)];
      if i == 0 then after == first && heads' == heads[b := h]
      else chain[i - 1] < |next| && after == first[chain[i - 1] := h] && heads' == heads
    ensures Buckets(idents, after, heads', chains[b := Put(chains[b], i, h)], members - {At(chains[b], i)} + {h})
  {
    hide Linked, Put, NoDuplicates;
    var chain := chains[b];
    var longer := Put(chain, i, h);
    assert BucketOk(idents, next, heads, chains, b);
    assert h !in chain;
    ChainReplaced(next, heads[b], chain, i, h);
    forall c | 0 <= c < |heads| && c != b ensures Chained(after, heads[c], chains[c]) {
      OtherBucket(idents, next, heads, chains, members, b, i, h, c);
    }
    PutHashes(idents, |heads|, b, chain, i, h);
    NilNotIn(next, heads[b], chain);
    var members' := members - {At(chain, i)} + {h};
    forall x | 0 <= x < |idents|
      ensures idents[x].hash % |heads| == b ==> (x in members' <==> x in longer)
      ensures idents[x].hash % |heads| != b ==> (x in members' <==> x in members)
    {
      PutMembers(chain, i, h, x);
      MemberOfBucket(idents, next, heads, chains, members, x);
      if i < |chain| {
        assert chain[i] in chain;
      } else {
        NilMember(idents, next, heads, chains, members);
      }
    }
    BucketsChanged(idents, next, heads, chains, members, b, after, heads'[b], longer, members');
    assert heads[b := heads'[b]] == heads';
  }

  lemma NilMember(idents: seq<Ident>, next: seq<nat>, heads: seq<nat>, chains: seq<seq<nat>>, members: set<nat>)
    requires Buckets(idents, next, heads, chains, members)
    ensures NIL !in members
  {
    if NIL in members {
      var b := idents[NIL].hash % |heads|;
      assert BucketOk(idents, next, heads, chains, b);
      NilNotIn(next, heads[b], chains[b]);
    }
  }

  lemma MemberOfBucket(idents: seq<Ident>, next: seq<nat>, heads: seq<nat>, chains: seq<seq<nat>>, members: set<nat>,
                       x: nat)
    requires Buckets(idents, next, heads, chains, members) && x < |idents|
    ensures x in members <==> x in chains[idents[x].hash % |heads|]
  {
  }

  lemma OtherBucket(idents: seq<Ident>, next: seq<nat>, heads: seq<nat>, chains: seq<seq<nat>>, members: set<nat>,
                    b: nat, i: nat, h: nat, c: nat)
    requires Buckets(idents, next, heads, chains, members) && h < |idents| && h !in members
    requires b < |heads| && c < |heads| && b != c && i <= |chains[b]|
    ensures
      var first := next[h := At(chains[b], i + 1)];
      && Chained(first, heads[c], chains[c])
      && (i > 0 ==> chains[b][i - 1] < |next| && Chained(first[chains[b][i - 1] := h], heads[c], chains[c]))
  {
    var chain := chains[b];
    assert BucketOk(idents, next, heads, chains, b) && BucketOk(idents, next, heads, chains, c);
    OtherChain(next, heads[c], chains[c], h, At(chain, i + 1));
    if i > 0 {
      assert Linked(next, chain, i - 1);
      assert chain[i - 1] in chain;
      OtherChain(next[h := At(chain, i + 1)], heads[c], chains[c], chain[i - 1], h);
    }
  }

  function Without(chain: seq<nat>, i: nat): seq<nat>
    requires i < |chain|
  {
    chain[..i] + chain[i + 1..]
  }

  lemma WithoutMembers(chain: seq<nat>, i: nat, x: nat)
    requires i < |chain| && NoDuplicates(chain)
    ensures x in Without(chain, i) <==> x in chain && x != chain[i]
  {
    assert chain == chain[..i] + [chain[i]] + chain[i + 1..];
    assert chain[i] !in chain[..i] && chain[i] !in chain[i + 1..];
  }

  lemma WithoutHashes(idents: seq<Ident>, length: nat, b: nat, chain: seq<nat>, i: nat)
    requires length > 0 && Hashes(idents, length, b, chain) && i < |chain|
    ensures Hashes(idents, length, b, Without(chain, i))
  {
  }

  lemma RemovedBucket(idents: seq<Ident>, next: seq<nat>, heads: seq<nat>, chains: seq<seq<nat>>, members: set<nat>,
                      b: nat, i: nat, after: seq<nat>, heads': seq<nat>)
    requires Buckets(idents, next, heads, chains, members) && b < |heads| && i < |chains[b]|
    requires
      var chain := chains[b];
      if i == 0 then after == next && heads' == heads[b := At(chain, i + 1)]
      else chain[i - 1] < |next| && after == next[chain[i - 1] := At(chain, i + 1)] && heads' == heads
    ensures Buckets(idents, after, heads', chains[b := Without(chains[b], i)], members - {chains[b][i]})
  {
    hide Linked, Hashes;
    var chain := chains[b];
    var shorter := Without(chain, i);
    assert BucketOk(idents, next, heads, chains, b);
    ChainRemoved(next, heads[b], chain, i);
    WithoutHashes(idents, |heads|, b, chain, i);
    forall c | 0 <= c < |heads| && c != b ensures Chained(after, heads[c], chains[c]) {
      assert BucketOk(idents, next, heads, chains, c);
      if i > 0 {
        OtherBuckets(idents, next, heads, chains, members, b, i - 1, c);
        OtherChain(next, heads[c], chains[c], chain[i - 1], At(chain, i + 1));
      }
    }
    var members' := members - {chain[i]};
    forall x | 0 <= x < |idents|
      ensures idents[x].hash % |heads| == b ==> (x in members' <==> x in shorter)
      ensures idents[x].hash % |heads| != b ==> (x in members' <==> x in members)
    {
      WithoutMembers(chain, i, x);
      MemberOfBucket(idents, next, heads, chains, members, x);
      OtherBuckets(idents, next, heads, chains, members, b, i, b);
    }
    BucketsChanged(idents, next, heads, chains, members, b, after, heads'[b], shorter, members');
    assert heads[b := heads'[b]] == heads';
  }

  /** A handle is in the bucket of its hash only. */
  lemma OtherBuckets(idents: seq<Ident>, next: seq<nat>, heads: seq<nat>, chains: seq<seq<nat>>, members: set<nat>,
                     b: nat, i: nat, c: nat)
    requires Buckets(idents, next, heads, chains, members) && b < |heads| && i < |chains[b]| && c < |heads|
    ensures chains[b][i] < |idents| && idents[chains[b][i]].hash % |heads| == b
    ensures c != b ==> chains[b][i] !in chains[c]
  {
    assert BucketOk(idents, next, heads, chains, b) && BucketOk(idents, next, heads, chains, c);
  }
}
