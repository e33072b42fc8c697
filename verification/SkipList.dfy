/** The skip list of the memtable, read without locks while one writer inserts (db/skiplist.h, lines
    142-368).

    Nodes live in an arena and are never freed, so a pointer is an index into the arena.  Each load and
    each store of a pointer is one atomic step; memory orders weaker than that are not part of this model. */
module SkipList {
  import opened DbFormat

  const MAX_HEIGHT := 12

  /** The head is node 0.  No pointer leads to it, so 0 also serves as the null pointer. */
  const HEAD := 0
  const NULL := 0

  datatype Node = Node(key: UserKey, next: seq<nat>)

  type Arena = seq<Node>

  /** An insertion in progress: node `x` is linked below `level`; `own` says whether its own pointer at
      `level` has been set. */
  datatype Insertion = Insertion(x: nat, prev: seq<nat>, level: nat, own: bool)

  // ---------- chains ----------

  ghost predicate InArena(arena: Arena, chain: seq<nat>, i: nat) {
    && chain != [] && chain[0] == HEAD
    && (forall j :: 0 <= j < |chain| ==> chain[j] < |arena| && i < |arena[chain[j]].next|)
    && (forall j :: 1 <= j < |chain| ==> chain[j] != HEAD)
  }

  function Successor(chain: seq<nat>, j: nat): nat {
    if j + 1 < |chain| then chain[j + 1] else NULL
  }

  /** `chain` is what following the pointers of level `i` from the head gives. */
  ghost predicate Linked(arena: Arena, chain: seq<nat>, i: nat)
    requires InArena(arena, chain, i)
  {
    forall j {:trigger Successor(chain, j)} :: 0 <= j < |chain| ==> arena[chain[j]].next[i] == Successor(chain, j)
  }

  ghost predicate Ascending(arena: Arena, chain: seq<nat>, i: nat)
    requires InArena(arena, chain, i)
  {
    forall j, k :: 1 <= j < k < |chain| ==> arena[chain[j]].key < arena[chain[k]].key
  }

  ghost predicate ChainOk(arena: Arena, chain: seq<nat>, i: nat) {
    InArena(arena, chain, i) && Linked(arena, chain, i) && Ascending(arena, chain, i)
  }

  /** A node that is on a level is on every level below. */
  ghost predicate Nested(levels: seq<seq<nat>>) {
    forall i, k, x :: 0 <= k <= i < |levels| && x in levels[i] ==> x in levels[k]
  }

  ghost predicate ListOk(arena: Arena, levels: seq<seq<nat>>) {
    && |levels| == MAX_HEIGHT
    && (forall i :: 0 <= i < MAX_HEIGHT ==> ChainOk(arena, levels[i], i))
    && Nested(levels)
  }

  /** `p` is the last node of the level before the key. */
  ghost predicate Splits(arena: Arena, chain: seq<nat>, i: nat, p: nat, key: UserKey)
    requires InArena(arena, chain, i)
  {
    && p in chain
    && (p != HEAD ==> arena[p].key < key)
    && (arena[p].next[i] != NULL ==> arena[p].next[i] < |arena| && key < arena[arena[p].next[i]].key)
  }

  ghost predicate WriterOk(arena: Arena, levels: seq<seq<nat>>, w: Option<Insertion>)
    requires ListOk(arena, levels)
  {
    w.Some? ==>
      var x := w.value.x;
      && HEAD < x < |arena|
      && w.value.level < |arena[x].next| == |w.value.prev| <= MAX_HEIGHT
      && (forall i :: 0 <= i < MAX_HEIGHT ==> (x in levels[i] <==> i < w.value.level))
      && (forall i :: w.value.level <= i < |w.value.prev| ==>
            Splits(arena, levels[i], i, w.value.prev[i], arena[x].key))
      && (w.value.own ==> arena[x].next[w.value.level] == arena[w.value.prev[w.value.level]].next[w.value.level])
  }

  /** The nodes of the list. */
  ghost function Nodes(levels: seq<seq<nat>>): set<nat>
    requires |levels| == MAX_HEIGHT
  {
    set x | x in levels[0] && x != HEAD
  }

  ghost function KeySet(arena: Arena, levels: seq<seq<nat>>): set<UserKey>
    requires |levels| == MAX_HEIGHT
  {
    set x | x in Nodes(levels) && x < |arena| :: arena[x].key
  }

  // ---------- searches ----------

  /** What `FindGreaterOrEqual`, `FindLessThan` and `FindLast` look for. */
  datatype Goal = AtOrAfter(target: UserKey) | Before(target: UserKey) | Last

  /** A search in progress: it stands at node `x` and is about to load the pointer of `level`. */
  datatype Search = Search(goal: Goal, x: nat, level: nat, result: Option<nat>)

  /** The search goes on along the level: the loaded pointer leads to a node before the goal. */
  predicate Continues(arena: Arena, goal: Goal, next: nat)
    requires next < |arena|
  {
    next != NULL && match goal
                    case AtOrAfter(t) => arena[next].key < t
                    case Before(t) => arena[next].key < t
                    case Last => true
  }

  predicate IsBefore(arena: Arena, goal: Goal, x: nat)
    requires x < |arena|
  {
    x == HEAD || goal.Last? || arena[x].key < goal.target
  }

  /** The answer of a search with respect to the nodes that were in the list when it began. */
  ghost predicate Answers(arena: Arena, present: set<nat>, goal: Goal, node: nat) {
    && node < |arena|
    && (forall y :: y in present ==> y < |arena|)
    && match goal
       case AtOrAfter(t) =>
         && (node != NULL ==> arena[node].key >= t)
         && (forall y :: y in present && arena[y].key >= t ==> node != NULL && arena[node].key <= arena[y].key)
       case Before(t) =>
         && (node != HEAD ==> arena[node].key < t)
         && (forall y :: y in present && arena[y].key < t ==> node != HEAD && arena[y].key <= arena[node].key)
       case Last =>
         forall y :: y in present ==> node != HEAD && arena[y].key <= arena[node].key
  }

  ghost predicate InList(levels: seq<seq<nat>>, x: nat)
    requires |levels| == MAX_HEIGHT
  {
    x == HEAD || x in Nodes(levels)
  }

  ghost predicate SearchOk(arena: Arena, levels: seq<seq<nat>>, present: set<nat>, r: Search)
    requires ListOk(arena, levels)
  {
    && present <= Nodes(levels)
    && if r.result.Some? then InList(levels, r.result.value) && Answers(arena, present, r.goal, r.result.value)
       else r.level < MAX_HEIGHT && r.x in levels[r.level] && r.x < |arena| && IsBefore(arena, r.goal, r.x)
  }

  /** Where node `x` is on a level. */
  lemma Position(arena: Arena, chain: seq<nat>, i: nat, x: nat) returns (j: nat)
    requires ChainOk(arena, chain, i) && x in chain
    ensures j < |chain| && chain[j] == x && (x == HEAD <==> j == 0)
    ensures x < |arena| && i < |arena[x].next|
    ensures arena[x].next[i] == Successor(chain, j)
    ensures arena[x].next[i] < |arena|
  {
    j :| 0 <= j < |chain| && chain[j] == x;
    assert arena[chain[j]].next[i] == Successor(chain, j);
  }

  /** The last step of a search: what the bottom level says about every node of the list. */
  lemma BottomAnswers(arena: Arena, levels: seq<seq<nat>>, present: set<nat>, goal: Goal, x: nat)
    requires ListOk(arena, levels) && present <= Nodes(levels) && x in levels[0] && IsBefore(arena, goal, x)
    requires arena[x].next[0] < |arena| && !Continues(arena, goal, arena[x].next[0])
    ensures Answers(arena, present, goal, if goal.AtOrAfter? then arena[x].next[0] else x)
  {
    assert ChainOk(arena, levels[0], 0);
    var j := Position(arena, levels[0], 0, x);
    forall y | y in present
      ensures y < |arena|
      ensures (x != HEAD && arena[y].key <= arena[x].key) ||
              (arena[x].next[0] != NULL && arena[arena[x].next[0]].key <= arena[y].key)
    {
      var k := Position(arena, levels[0], 0, y);
    }
  }

  /** Following a pointer of the level. */
  lemma StepAlong(arena: Arena, levels: seq<seq<nat>>, level: nat, j: nat)
    requires ListOk(arena, levels) && level < MAX_HEIGHT && j < |levels[level]|
    ensures var x := levels[level][j];
      && x < |arena| && level < |arena[x].next| && arena[x].next[level] < |arena|
      && (arena[x].next[level] != NULL ==>
            j + 1 < |levels[level]| && arena[x].next[level] == levels[level][j + 1] &&
            arena[x].next[level] in Nodes(levels))
  {
    assert ChainOk(arena, levels[level], level);
    assert arena[levels[level][j]].next[level] == Successor(levels[level], j);
    assert j + 1 < |levels[level]| ==> levels[level][j + 1] in levels[level];
  }

  /** Where the search leaves a level, the level splits. */
  lemma StopHere(arena: Arena, levels: seq<seq<nat>>, level: nat, j: nat, key: UserKey)
    requires ListOk(arena, levels) && level < MAX_HEIGHT && j < |levels[level]| && levels[level][j] < |arena|
    requires IsBefore(arena, AtOrAfter(key), levels[level][j])
    requires ChainOk(arena, levels[level], level)
    requires arena[levels[level][j]].next[level] < |arena|
    requires !Continues(arena, AtOrAfter(key), arena[levels[level][j]].next[level])
    requires key !in KeySet(arena, levels)
    ensures Splits(arena, levels[level], level, levels[level][j], key)
  {
    StepAlong(arena, levels, level, j);
  }

  /** On the way down: the node is on the next level, too. */
  lemma StepDown(arena: Arena, levels: seq<seq<nat>>, level: nat, x: nat) returns (j: nat)
    requires ListOk(arena, levels) && 0 < level < MAX_HEIGHT && x in levels[level]
    ensures j < |levels[level - 1]| && levels[level - 1][j] == x
  {
    assert x in levels[level - 1];
    assert ChainOk(arena, levels[level - 1], level - 1);
    j := Position(arena, levels[level - 1], level - 1, x);
  }

  // ---------- searches end ----------

  /** The nodes of a level from `x` on. */
  ghost function Rest(chain: seq<nat>, x: nat): nat {
    if chain == [] then 0 else if chain[0] == x then |chain| else Rest(chain[1..], x)
  }

  /** The nodes of the levels below `n`, each counted on every level. */
  ghost function Below(levels: seq<seq<nat>>, n: nat): nat
    requires n <= |levels|
  {
    if n == 0 then 0 else Below(levels, n - 1) + |levels[n - 1]|
  }

  /** A bound on the moves that a search has left while the writer stores nothing. */
  ghost function MovesLeft(levels: seq<seq<nat>>, r: Search): nat
    requires r.level < |levels|
  {
    Below(levels, r.level) + Rest(levels[r.level], r.x)
  }

  lemma {:induction false} RestAt(chain: seq<nat>, j: nat)
    requires j < |chain| && forall k :: 0 <= k < j ==> chain[k] != chain[j]
    ensures Rest(chain, chain[j]) == |chain| - j
  {
    if j > 0 {
      RestAt(chain[1..], j - 1);
    }
  }

  lemma {:induction false} RestPositive(chain: seq<nat>, x: nat)
    requires x in chain
    ensures 1 <= Rest(chain, x) <= |chain|
  {
    if chain[0] != x {
      RestPositive(chain[1..], x);
    }
  }

  /** No node is twice on a level. */
  lemma OnceOnLevel(arena: Arena, chain: seq<nat>, i: nat, j: nat)
    requires ChainOk(arena, chain, i) && j < |chain|
    ensures forall k :: 0 <= k < j ==> chain[k] != chain[j]
  {
    forall k | 0 <= k < j ensures chain[k] != chain[j] {
      assert k >= 1 ==> arena[chain[k]].key < arena[chain[j]].key;
    }
  }

  lemma MovedAlong(arena: Arena, levels: seq<seq<nat>>, r: Search, j: nat)
    requires ListOk(arena, levels) && r.level < MAX_HEIGHT && j + 1 < |levels[r.level]| && levels[r.level][j] == r.x
    ensures MovesLeft(levels, r.(x := levels[r.level][j + 1])) < MovesLeft(levels, r)
  {
    hide Nested;
    var chain := levels[r.level];
    OnceOnLevel(arena, chain, r.level, j);
    OnceOnLevel(arena, chain, r.level, j + 1);
    RestAt(chain, j);
    RestAt(chain, j + 1);
  }

  lemma MovedDown(levels: seq<seq<nat>>, r: Search)
    requires 0 < r.level < |levels| && r.x in levels[r.level] && r.x in levels[r.level - 1]
    ensures MovesLeft(levels, r.(level := r.level - 1)) < MovesLeft(levels, r)
  {
    RestPositive(levels[r.level], r.x);
    RestPositive(levels[r.level - 1], r.x);
  }

  lemma {:induction false} RestInsert(chain: seq<nat>, j: nat, y: nat, x: nat)
    requires j < |chain| && x in chain && y !in chain
    ensures Rest(InsertAt(chain, j, y), x) <= Rest(chain, x) + 1
  {
    var more := InsertAt(chain, j, y);
    if chain[0] != x {
      var tail := chain[1..];
      if j > 0 {
        RestInsert(tail, j - 1, y, x);
        assert more[1..] == InsertAt(tail, j - 1, y);
      } else {
        assert more[1..] == [y] + tail;
        assert ([y] + tail)[1..] == tail;
      }
    }
  }

  lemma {:induction false} BelowInsert(levels: seq<seq<nat>>, l: nat, j: nat, y: nat, n: nat)
    requires l < |levels| && j < |levels[l]| && n <= |levels|
    ensures Below(levels[l := InsertAt(levels[l], j, y)], n) == Below(levels, n) + if l < n then 1 else 0
  {
    if n > 0 {
      BelowInsert(levels, l, j, y, n - 1);
    }
  }

  /** A store that publishes a node on a level adds at most one move. */
  lemma OneMoreMove(levels: seq<seq<nat>>, l: nat, j: nat, y: nat, r: Search)
    requires l < |levels| && j < |levels[l]| && y !in levels[l]
    requires r.level < |levels| && r.x in levels[r.level]
    ensures MovesLeft(levels[l := InsertAt(levels[l], j, y)], r) <= MovesLeft(levels, r) + 1
  {
    hide InsertAt, Below, Rest;
    BelowInsert(levels, l, j, y, r.level);
    if l == r.level {
      RestInsert(levels[l], j, y, r.x);
    }
  }

  // ---------- linking ----------

  function Store(arena: Arena, x: nat, i: nat, p: nat): (r: Arena)
    requires x < |arena| && i < |arena[x].next|
    ensures |r| == |arena| && |r[x].next| == |arena[x].next| && r[x].next[i] == p
    ensures forall y :: 0 <= y < |arena| ==> r[y].key == arena[y].key && |r[y].next| == |arena[y].next|
    ensures forall y, k :: 0 <= y < |arena| && 0 <= k < |arena[y].next| && (y != x || k != i) ==>
      r[y].next[k] == arena[y].next[k]
  {
    arena[x := arena[x].(next := arena[x].next[i := p])]
  }

  /** A store to a pointer that the level does not follow leaves the level as it is. */
  lemma OtherChain(arena: Arena, chain: seq<nat>, i: nat, x: nat, k: nat, p: nat)
    requires ChainOk(arena, chain, i) && x < |arena| && k < |arena[x].next| && (k != i || x !in chain)
    ensures ChainOk(Store(arena, x, k, p), chain, i)
  {
  }

  function InsertAt(chain: seq<nat>, j: nat, x: nat): seq<nat>
    requires j < |chain|
  {
    chain[..j + 1] + [x] + chain[j + 1..]
  }

  /** The store that publishes node `x` on level `i`. */
  lemma LinkChain(arena: Arena, chain: seq<nat>, i: nat, p: nat, x: nat, j: nat)
    requires ChainOk(arena, chain, i) && j < |chain| && chain[j] == p
    requires HEAD < x < |arena| && i < |arena[x].next| && x !in chain
    requires Splits(arena, chain, i, p, arena[x].key) && arena[x].next[i] == arena[p].next[i]
    ensures ChainOk(Store(arena, p, i, x), InsertAt(chain, j, x), i)
  {
    var after := Store(arena, p, i, x);
    var more := InsertAt(chain, j, x);
    assert p != x;
    assert InArena(after, more, i);
    forall k | 0 <= k < |chain| && k != j ensures chain[k] != p {
      assert k < j && k >= 1 ==> arena[chain[k]].key < arena[chain[j]].key;
      assert k > j && j >= 1 ==> arena[chain[j]].key < arena[chain[k]].key;
    }
    forall k | 0 <= k < |more| ensures after[more[k]].next[i] == Successor(more, k) {
      assert arena[chain[j]].next[i] == Successor(chain, j);
      if k <= j {
        assert arena[chain[k]].next[i] == Successor(chain, k);
      } else if k > j + 1 {
        assert arena[chain[k - 1]].next[i] == Successor(chain, k - 1);
      }
    }
    LinkAscending(arena, chain, i, p, x, j);
  }

  lemma LinkAscending(arena: Arena, chain: seq<nat>, i: nat, p: nat, x: nat, j: nat)
    requires ChainOk(arena, chain, i) && j < |chain| && chain[j] == p
    requires HEAD < x < |arena| && i < |arena[x].next| && x !in chain
    requires Splits(arena, chain, i, p, arena[x].key)
    requires InArena(Store(arena, p, i, x), InsertAt(chain, j, x), i)
    ensures Ascending(Store(arena, p, i, x), InsertAt(chain, j, x), i)
  {
    assert arena[chain[j]].next[i] == Successor(chain, j);
    forall k | 1 <= k < |chain|
      ensures if k <= j then arena[chain[k]].key < arena[x].key else arena[x].key < arena[chain[k]].key
    {
      assert k < j ==> arena[chain[k]].key < arena[chain[j]].key;
      assert j + 1 < k ==> arena[chain[j + 1]].key < arena[chain[k]].key;
    }
  }

  lemma EmptySplits(arena: Arena, chain: seq<nat>, i: nat, key: UserKey)
    requires ChainOk(arena, chain, i) && chain == [HEAD]
    ensures Splits(arena, chain, i, HEAD, key)
  {
    assert arena[chain[0]].next[i] == Successor(chain, 0);
  }

  /** A new node that no pointer leads to changes nothing. */
  lemma StartChains(arena: Arena, levels: seq<seq<nat>>, n: Node, prev: seq<nat>)
    requires ListOk(arena, levels) && 1 <= |prev| == |n.next| <= MAX_HEIGHT
    requires forall i :: 0 <= i < |prev| ==> Splits(arena, levels[i], i, prev[i], n.key)
    ensures ListOk(arena + [n], levels)
    ensures WriterOk(arena + [n], levels, Some(Insertion(|arena|, prev, 0, false)))
  {
    var after := arena + [n];
    assert ChainOk(arena, levels[0], 0) && levels[0][0] == HEAD < |arena|;
    forall i | 0 <= i < MAX_HEIGHT ensures ChainOk(after, levels[i], i) {
      assert ChainOk(arena, levels[i], i);
    }
    forall i | 0 <= i < |prev| ensures Splits(after, levels[i], i, prev[i], n.key) {
      assert ChainOk(arena, levels[i], i);
      assert Splits(arena, levels[i], i, prev[i], n.key);
    }
    forall i | 0 <= i < MAX_HEIGHT ensures |arena| !in levels[i] {
      assert ChainOk(arena, levels[i], i);
    }
  }

  lemma OwnStore(arena: Arena, levels: seq<seq<nat>>, w: Insertion)
    requires ListOk(arena, levels) && WriterOk(arena, levels, Some(w))
    ensures w.prev[w.level] < |arena| && w.level < |arena[w.prev[w.level]].next|
    ensures var after := Store(arena, w.x, w.level, arena[w.prev[w.level]].next[w.level]);
      ListOk(after, levels) && WriterOk(after, levels, Some(w.(own := true)))
  {
    forall i | 0 <= i < MAX_HEIGHT ensures ChainOk(arena, levels[i], i) {
    }
    hide Linked, Ascending;
    assert Splits(arena, levels[w.level], w.level, w.prev[w.level], arena[w.x].key);
    var p := arena[w.prev[w.level]].next[w.level];
    var after := Store(arena, w.x, w.level, p);
    forall i | 0 <= i < MAX_HEIGHT ensures ChainOk(after, levels[i], i) {
      OtherChain(arena, levels[i], i, w.x, w.level, p);
    }
    forall i | w.level <= i < |w.prev| ensures Splits(after, levels[i], i, w.prev[i], after[w.x].key) {
      assert Splits(arena, levels[i], i, w.prev[i], arena[w.x].key);
    }
  }

  lemma NestedInsert(levels: seq<seq<nat>>, l: nat, j: nat, x: nat)
    requires Nested(levels) && l < |levels| && j < |levels[l]|
    requires forall i :: 0 <= i < |levels| ==> (x in levels[i] <==> i < l)
    ensures Nested(levels[l := InsertAt(levels[l], j, x)])
    ensures forall y :: y in InsertAt(levels[l], j, x) <==> y in levels[l] || y == x
  {
    var chain := levels[l];
    assert chain == chain[..j + 1] + chain[j + 1..];
    forall y ensures y in InsertAt(chain, j, x) <==> y in chain || y == x {
    }
  }

  lemma PublishPosition(arena: Arena, levels: seq<seq<nat>>, w: Insertion) returns (j: nat)
    requires ListOk(arena, levels) && WriterOk(arena, levels, Some(w))
    ensures w.level < |w.prev| && w.level < |levels|
    ensures j < |levels[w.level]| && levels[w.level][j] == w.prev[w.level]
  {
    assert ChainOk(arena, levels[w.level], w.level);
    j := Position(arena, levels[w.level], w.level, w.prev[w.level]);
  }

  lemma PublishChains(arena: Arena, levels: seq<seq<nat>>, w: Insertion, j: nat)
    requires ListOk(arena, levels) && WriterOk(arena, levels, Some(w)) && w.own
    requires j < |levels[w.level]| && levels[w.level][j] == w.prev[w.level]
    ensures w.prev[w.level] < |arena| && w.level < |arena[w.prev[w.level]].next|
    ensures ListOk(Store(arena, w.prev[w.level], w.level, w.x),
                   levels[w.level := InsertAt(levels[w.level], j, w.x)])
  {
    hide Linked, Ascending, Nested;
    var l, p := w.level, w.prev[w.level];
    assert Splits(arena, levels[l], l, p, arena[w.x].key);
    var after := Store(arena, p, l, w.x);
    var more := levels[l := InsertAt(levels[l], j, w.x)];
    NestedInsert(levels, l, j, w.x);
    forall i | 0 <= i < MAX_HEIGHT ensures ChainOk(after, more[i], i) {
      assert ChainOk(arena, levels[i], i);
      if i == l {
        LinkChain(arena, levels[l], l, p, w.x, j);
      } else {
        OtherChain(arena, levels[i], i, p, l, w.x);
      }
    }
  }

  lemma PublishWriter(arena: Arena, levels: seq<seq<nat>>, w: Insertion, j: nat, after: Arena, more: seq<seq<nat>>)
    requires ListOk(arena, levels) && WriterOk(arena, levels, Some(w)) && w.own
    requires j < |levels[w.level]| && levels[w.level][j] == w.prev[w.level]
    requires more == levels[w.level := InsertAt(levels[w.level], j, w.x)] && ListOk(after, more)
    requires w.prev[w.level] < |arena| && w.level < |arena[w.prev[w.level]].next|
    requires after == Store(arena, w.prev[w.level], w.level, w.x)
    ensures WriterOk(after, more, NextLink(w))
  {
    hide Linked, Ascending, Nested;
    NestedInsert(levels, w.level, j, w.x);
    forall i | w.level + 1 <= i < |w.prev| ensures Splits(after, more[i], i, w.prev[i], after[w.x].key) {
      assert ChainOk(after, more[i], i);
      assert Splits(arena, levels[i], i, w.prev[i], arena[w.x].key);
    }
  }

  lemma NotYetThere(arena: Arena, levels: seq<seq<nat>>, w: Insertion)
    requires ListOk(arena, levels) && WriterOk(arena, levels, Some(w))
    ensures w.level < |levels| && w.x !in levels[w.level]
  {
    hide ChainOk, Splits, Nested;
  }

  function NextLink(w: Insertion): Option<Insertion> {
    if w.level + 1 < |w.prev| then Some(w.(level := w.level + 1, own := false)) else None
  }

  lemma PublishGrown(arena: Arena, levels: seq<seq<nat>>, w: Insertion, j: nat, after: Arena)
    requires ListOk(arena, levels) && WriterOk(arena, levels, Some(w))
    requires j < |levels[w.level]| && levels[w.level][j] == w.prev[w.level]
    requires |after| == |arena| && forall x :: 0 <= x < |arena| ==> after[x].key == arena[x].key
    ensures var more := levels[w.level := InsertAt(levels[w.level], j, w.x)];
      GrownFrom(arena, levels, after, more) && Nodes(more) == Nodes(levels) + {w.x}
  {
    hide ChainOk, Splits;
    NestedInsert(levels, w.level, j, w.x);
  }

  /** Nodes stay where they are, and so do their keys. */
  ghost predicate GrownFrom(before: Arena, levelsBefore: seq<seq<nat>>, after: Arena, levelsAfter: seq<seq<nat>>) {
    && |before| <= |after|
    && |levelsBefore| == |levelsAfter| == MAX_HEIGHT
    && (forall x :: 0 <= x < |before| ==> after[x].key == before[x].key)
    && (forall i, x :: 0 <= i < MAX_HEIGHT && x in levelsBefore[i] ==> x in levelsAfter[i])
  }

  lemma GrownTwice(a: Arena, l: seq<seq<nat>>, b: Arena, m: seq<seq<nat>>, c: Arena, n: seq<seq<nat>>)
    requires GrownFrom(a, l, b, m) && GrownFrom(b, m, c, n)
    ensures GrownFrom(a, l, c, n)
  {
    forall x | 0 <= x < |a| ensures c[x].key == a[x].key {
      assert b[x].key == a[x].key;
    }
  }

  /** Whatever the writer does, a search in progress remains a search in progress. */
  lemma SearchGrows(a: Arena, l: seq<seq<nat>>, b: Arena, m: seq<seq<nat>>, present: set<nat>, r: Search)
    requires ListOk(a, l) && ListOk(b, m) && GrownFrom(a, l, b, m)
    requires SearchOk(a, l, present, r)
    ensures SearchOk(b, m, present, r)
  {
    hide ListOk;
    if r.result.Some? {
      AnswersGrow(a, l, b, m, present, r.goal, r.result.value);
    }
  }

  lemma AnswersGrow(a: Arena, l: seq<seq<nat>>, b: Arena, m: seq<seq<nat>>, present: set<nat>, goal: Goal, node: nat)
    requires GrownFrom(a, l, b, m) && Answers(a, present, goal, node)
    ensures Answers(b, present, goal, node)
  {
    forall y | y in present ensures y < |b| && b[y].key == a[y].key {
    }
  }

  // ---------- the list ----------

  class List {
    var arena: Arena
    var maxHeight: nat
    var writer: Option<Insertion>
    ghost var levels: seq<seq<nat>>

    ghost predicate Valid()
      reads this
    {
      && |levels| == MAX_HEIGHT
      && ListOk(arena, levels)
      && 1 <= maxHeight <= MAX_HEIGHT
      && (forall i :: maxHeight <= i < MAX_HEIGHT ==> levels[i] == [HEAD])
      && WriterOk(arena, levels, writer)
      && (writer.Some? ==> |writer.value.prev| <= maxHeight)
    }

    ghost function Keys(): set<UserKey>
      reads this
      requires Valid()
    {
      KeySet(arena, levels)
    }

    twostate predicate Grown()
      reads this
    {
      GrownFrom(old(arena), old(levels), arena, levels)
    }

    constructor ()
      ensures Valid() && writer.None? && Keys() == {}
    {
      arena := [Node(0.0, seq(MAX_HEIGHT, _ => NULL))];
      maxHeight := 1;
      writer := None;
      levels := seq(MAX_HEIGHT, _ => [HEAD]);
    }

    // ---------- readers ----------

    /** A search begins with the maximum height that the reader happens to see. */
    method StartSearch(goal: Goal) returns (r: Search)
      requires Valid()
      ensures r.goal == goal && SearchOk(arena, levels, Nodes(levels), r) && r.result.None?
      ensures r.level == maxHeight - 1 && MovesLeft(levels, r) == Below(levels, maxHeight)
    {
      r := Search(goal, HEAD, maxHeight - 1, None);
      assert ChainOk(arena, levels[r.level], r.level) && levels[r.level][0] == HEAD;
    }

    /** One iteration of the search loop: one load. */
    method SearchStep(r: Search, ghost present: set<nat>) returns (t: Search)
      requires Valid() && SearchOk(arena, levels, present, r) && r.result.None?
      ensures SearchOk(arena, levels, present, t) && t.goal == r.goal
      ensures t.result.Some? ==> r.level == 0
      ensures t.result.None? ==> t.level < r.level || (t.level == r.level && t.x == arena[r.x].next[r.level] != NULL)
      ensures t.level == r.level - 1 ==> t.x == r.x
      ensures t.result.None? ==> MovesLeft(levels, t) < MovesLeft(levels, r)
    {
      hide MovesLeft;
      assert ChainOk(arena, levels[r.level], r.level);
      ghost var j := Position(arena, levels[r.level], r.level, r.x);
      var next := arena[r.x].next[r.level];
      assert next != NULL ==> next == levels[r.level][j + 1] && next in levels[r.level];
      if Continues(arena, r.goal, next) {
        t := r.(x := next);
        MovedAlong(arena, levels, r, j);
      } else if r.level == 0 {
        t := r.(result := Some(if r.goal.AtOrAfter? then next else r.x));
        BottomAnswers(arena, levels, present, r.goal, r.x);
      } else {
        t := r.(level := r.level - 1);
        MovedDown(levels, r);
      }
    }

    /** The search of the writer: it also notes, for every level, the last node before the key. */
    method FindGreaterOrEqual(key: UserKey) returns (node: nat, prev: seq<nat>)
      requires Valid()
      ensures Answers(arena, Nodes(levels), AtOrAfter(key), node) && (node != NULL ==> node in Nodes(levels))
      ensures |prev| == maxHeight
      ensures key !in Keys() ==> forall i :: 0 <= i < maxHeight ==> Splits(arena, levels[i], i, prev[i], key)
    {
      hide Nested, Splits, WriterOk, Nodes, KeySet, Answers, Linked, Ascending;
      var x: nat, level: nat := HEAD, maxHeight - 1;
      prev := seq(maxHeight, _ => HEAD);
      ghost var j: nat := 0;
      while true
        invariant level < maxHeight == |prev|
        invariant j < |levels[level]| && levels[level][j] == x < |arena| && IsBefore(arena, AtOrAfter(key), x)
        invariant key !in Keys() ==> forall i :: level < i < maxHeight ==> Splits(arena, levels[i], i, prev[i], key)
        decreases level, |levels[level]| - j
      {
        StepAlong(arena, levels, level, j);
        var next := arena[x].next[level];
        if Continues(arena, AtOrAfter(key), next) {
          x, j := next, j + 1;
        } else {
          prev := prev[level := x];
          if key !in Keys() {
            StopHere(arena, levels, level, j, key);
          }
          if level == 0 {
            node := next;
            BottomAnswers(arena, levels, Nodes(levels), AtOrAfter(key), x);
            return;
          }
          j := StepDown(arena, levels, level, x);
          level := level - 1;
        }
      }
    }

    // ---------- the writer ----------

    /** Everything before the first store to a pointer of the list: the search, the new maximum height and the
        new node.  Its pointers are not initialised yet; `junk` is what they hold. */
    method StartInsert(key: UserKey, height: nat, junk: seq<nat>)
      requires Valid() && writer.None? && key !in Keys()
      requires 1 <= height == |junk| <= MAX_HEIGHT
      modifies this
      ensures Valid() && Grown() && levels == old(levels)
      ensures writer.Some? && writer.value.level == 0 && |writer.value.prev| == height && !writer.value.own
      ensures maxHeight == if height > old(maxHeight) then height else old(maxHeight)
      ensures writer.value.x == |old(arena)| < |arena| && arena[writer.value.x].key == key
    {
      hide Linked, Ascending, Nested, Splits, WriterOk, Nodes, KeySet, Answers;
      var node, prev := FindGreaterOrEqual(key);
      if height > maxHeight {
        prev := prev + seq(height - maxHeight, _ => HEAD);
        maxHeight := height;
      }
      forall i | 0 <= i < height ensures Splits(arena, levels[i], i, prev[i], key) {
        if i >= old(maxHeight) {
          EmptySplits(arena, levels[i], i, key);
        }
      }
      StartChains(arena, levels, Node(key, junk), prev[..height]);
      writer := Some(Insertion(|arena|, prev[..height], 0, false));
      arena := arena + [Node(key, junk)];
    }

    /** Points the new node at its successor on the level.  No reader can see the node there yet. */
    method SetOwnPointer()
      requires Valid() && writer.Some? && !writer.value.own
      modifies this
      ensures Valid() && Grown() && levels == old(levels) && writer == Some(old(writer.value).(own := true))
      ensures maxHeight == old(maxHeight)
      ensures |arena| == |old(arena)|
      ensures forall x :: 0 <= x < |arena| ==> arena[x].key == old(arena)[x].key
    {
      var w := writer.value;
      OwnStore(arena, levels, w);
      var successor := arena[w.prev[w.level]].next[w.level];
      arena := Store(arena, w.x, w.level, successor);
      writer := Some(w.(own := true));
    }

    /** Publishes the new node on the level. */
    method PublishPointer()
      requires Valid() && writer.Some? && writer.value.own
      modifies this
      ensures Valid() && Grown()
      ensures writer == NextLink(old(writer.value)) && maxHeight == old(maxHeight)
      ensures Joins(old(levels), levels, old(writer.value).level, old(writer.value).x)
      ensures Nodes(levels) == Nodes(old(levels)) + {old(writer.value).x}
      ensures |arena| == |old(arena)| && forall x :: 0 <= x < |arena| ==> arena[x].key == old(arena)[x].key
      ensures forall r: Search :: r.level < MAX_HEIGHT && r.x in old(levels)[r.level] ==>
        MovesLeft(levels, r) <= MovesLeft(old(levels), r) + 1
    {
      hide ListOk, WriterOk, Nodes, GrownFrom, MovesLeft;
      var w := writer.value;
      ghost var j := PublishPosition(arena, levels, w);
      ghost var more := levels[w.level := InsertAt(levels[w.level], j, w.x)];
      PublishChains(arena, levels, w, j);
      var after := Store(arena, w.prev[w.level], w.level, w.x);
      PublishWriter(arena, levels, w, j, after, more);
      PublishGrown(arena, levels, w, j, after);
      NotYetThere(arena, levels, w);
      forall r: Search | r.level < MAX_HEIGHT && r.x in levels[r.level]
        ensures MovesLeft(more, r) <= MovesLeft(levels, r) + 1
      {
        OneMoreMove(levels, w.level, j, w.x, r);
      }
      JoinsOne(levels, w.level, j, w.x);
      arena := after;
      levels := more;
      writer := NextLink(w);
    }

    /** `Insert` without interruption: the new node is on as many levels as its height, and on no more. */
    method Insert(key: UserKey, height: nat, junk: seq<nat>)
      requires Valid() && writer.None? && key !in Keys()
      requires 1 <= height == |junk| <= MAX_HEIGHT
      modifies this
      ensures Valid() && Grown() && writer.None? && Keys() == old(Keys()) + {key}
      ensures |old(arena)| < |arena| && arena[|old(arena)|].key == key
      ensures Rises(old(levels), levels, height, |old(arena)|)
      ensures maxHeight == if height > old(maxHeight) then height else old(maxHeight)
    {
      hide ListOk, WriterOk, Nodes, GrownFrom, Joins, Rises;
      ghost var a, l := arena, levels;
      NodesKnown();
      StartInsert(key, height, junk);
      ghost var x := writer.value.x;
      NotRisen(levels, x);
      while writer.Some?
        invariant Valid() && GrownFrom(a, l, arena, levels) && x < |arena| && arena[x].key == key
        invariant writer.Some? ==> writer.value.x == x && |writer.value.prev| == height && !writer.value.own
        invariant maxHeight == if height > old(maxHeight) then height else old(maxHeight)
        invariant Rises(l, levels, if writer.Some? then writer.value.level else height, x)
        invariant Nodes(levels) == Nodes(l) + if writer.Some? && writer.value.level == 0 then {} else {x}
        decreases if writer.Some? then height - writer.value.level else 0
      {
        ghost var before, n := levels, writer.value.level;
        ghost var b := arena;
        WriterLevel();
        SetOwnPointer();
        GrownTwice(a, l, b, before, arena, levels);
        ghost var c := arena;
        PublishPointer();
        GrownTwice(a, l, c, before, arena, levels);
        RisesOne(l, before, levels, n, x);
      }
      GrownKeys(a, l, arena, levels);
      InsertedKeys(a, l, arena, levels, x);
    }

    lemma NodesKnown()
      requires Valid()
      ensures forall y :: y in Nodes(levels) ==> y < |arena|
    {
    }

    lemma WriterLevel()
      requires Valid() && writer.Some?
      ensures writer.value.level < |writer.value.prev|
    {
      hide ListOk;
    }

    method Contains(key: UserKey) returns (r: bool)
      requires Valid()
      ensures r == (key in Keys())
    {
      var x, prev := FindGreaterOrEqual(key);
      r := x != NULL && arena[x].key == key;
      if key in Keys() {
        var y :| y in Nodes(levels) && y < |arena| && arena[y].key == key;
      }
    }
  }

  /** The node joins the chain of one level. */
  ghost predicate Joins(before: seq<seq<nat>>, after: seq<seq<nat>>, level: nat, x: nat) {
    |before| == |after| && level < |after| &&
    forall i, y :: 0 <= i < |after| ==> (y in after[i] <==> y in before[i] || (y == x && i == level))
  }

  /** The node has joined the chains of the lowest `height` levels. */
  ghost predicate Rises(before: seq<seq<nat>>, after: seq<seq<nat>>, height: nat, x: nat) {
    |before| == |after| &&
    forall i, y :: 0 <= i < |after| ==> (y in after[i] <==> y in before[i] || (y == x && i < height))
  }

  lemma JoinsOne(levels: seq<seq<nat>>, level: nat, j: nat, x: nat)
    requires level < |levels| && j < |levels[level]|
    ensures Joins(levels, levels[level := InsertAt(levels[level], j, x)], level, x)
  {
    var chain := levels[level];
    forall y ensures y in InsertAt(chain, j, x) <==> y in chain || y == x {
      assert chain == chain[..j + 1] + chain[j + 1..];
    }
  }

  lemma NotRisen(levels: seq<seq<nat>>, x: nat)
    ensures Rises(levels, levels, 0, x)
  {
  }

  lemma RisesOne(before: seq<seq<nat>>, l: seq<seq<nat>>, after: seq<seq<nat>>, n: nat, x: nat)
    requires Rises(before, l, n, x) && Joins(l, after, n, x)
    ensures Rises(before, after, n + 1, x)
  {
  }

  lemma GrownKeys(a: Arena, l: seq<seq<nat>>, b: Arena, m: seq<seq<nat>>)
    requires GrownFrom(a, l, b, m)
    ensures |a| <= |b| && forall y :: 0 <= y < |a| ==> b[y].key == a[y].key
  {
  }

  lemma InsertedKeys(before: Arena, old': seq<seq<nat>>, arena: Arena, levels: seq<seq<nat>>, x: nat)
    requires |old'| == |levels| == MAX_HEIGHT && x < |arena| && |before| <= |arena|
    requires forall y :: 0 <= y < |before| ==> arena[y].key == before[y].key
    requires Nodes(levels) == Nodes(old') + {x} && forall y :: y in Nodes(old') ==> y < |before|
    ensures (set y | y in Nodes(levels) && y < |arena| :: arena[y].key) ==
            (set y | y in Nodes(old') && y < |before| :: before[y].key) + {arena[x].key}
  {
  }

  // ---------- interleaving ----------

  /** One step of the reader, or of the writer. */
  datatype Turn = Load | Begin(key: UserKey, junk: seq<nat>) | SetOwn | Publish

  function Loads(schedule: seq<Turn>): nat {
    if schedule == [] then 0
    else Loads(schedule[..|schedule| - 1]) + if schedule[|schedule| - 1].Load? then 1 else 0
  }

  function Publishes(schedule: seq<Turn>): nat {
    if schedule == [] then 0
    else Publishes(schedule[..|schedule| - 1]) + if schedule[|schedule| - 1].Publish? then 1 else 0
  }

  /** Any schedule of the steps of one search and of the insertions of one writer.  If the search ends, its
      answer takes into account every node that was in the list when the search began.  It ends as soon as it has
      had one turn for every node on every level and for every node that the writer has published on a level. */
  method Interleave(list: List, goal: Goal, schedule: seq<Turn>) returns (r: Search)
    requires list.Valid()
    modifies list
    ensures list.Valid() && list.Grown()
    ensures r.goal == goal
    ensures r.result.Some? ==>
      InList(list.levels, r.result.value) && Answers(list.arena, old(Nodes(list.levels)), goal, r.result.value)
    ensures Loads(schedule) >= old(Below(list.levels, list.maxHeight)) + Publishes(schedule) ==> r.result.Some?
  {
    hide ListOk, WriterOk, SearchOk, Answers, GrownFrom, MovesLeft, Below;
    ghost var present := Nodes(list.levels);
    ghost var a, l := list.arena, list.levels;
    SelfGrown(a, l);
    ghost var bound := Below(list.levels, list.maxHeight);
    r := list.StartSearch(goal);
    for n := 0 to |schedule|
      invariant list.Valid() && GrownFrom(a, l, list.arena, list.levels)
      invariant r.goal == goal && SearchOk(list.arena, list.levels, present, r)
      invariant r.result.None? ==> r.level < MAX_HEIGHT
      invariant r.result.None? ==> MovesLeft(list.levels, r) + Loads(schedule[..n]) <= bound + Publishes(schedule[..n])
    {
      assert schedule[..n + 1][..n] == schedule[..n];
      Underway(list.arena, list.levels, present, r);
      if schedule[n].Load? {
        if r.result.None? {
          r := list.SearchStep(r, present);
        }
      } else {
        ghost var b, m := list.arena, list.levels;
        WriterTurn(list, schedule[n]);
        GrownTwice(a, l, b, m, list.arena, list.levels);
        SearchGrows(b, m, list.arena, list.levels, present, r);
      }
    }
    assert schedule[..|schedule|] == schedule;
    Underway(list.arena, list.levels, present, r);
    SearchEnds(list.arena, list.levels, present, r);
  }

  lemma Underway(arena: Arena, levels: seq<seq<nat>>, present: set<nat>, r: Search)
    requires ListOk(arena, levels) && SearchOk(arena, levels, present, r)
    ensures r.result.None? ==> r.level < |levels| == MAX_HEIGHT && r.x in levels[r.level] && MovesLeft(levels, r) >= 1
  {
    hide ChainOk, Nested;
    if r.result.None? {
      RestPositive(levels[r.level], r.x);
    }
  }

  lemma SelfGrown(a: Arena, l: seq<seq<nat>>)
    requires |l| == MAX_HEIGHT
    ensures GrownFrom(a, l, a, l)
  {
  }

  lemma SearchEnds(arena: Arena, levels: seq<seq<nat>>, present: set<nat>, r: Search)
    requires ListOk(arena, levels) && SearchOk(arena, levels, present, r)
    ensures r.result.Some? ==> InList(levels, r.result.value) && Answers(arena, present, r.goal, r.result.value)
  {
  }

  /** One step of the writer, if it is its turn to take that step. */
  method WriterTurn(list: List, turn: Turn)
    requires list.Valid()
    modifies list
    ensures list.Valid() && list.Grown()
    ensures forall r: Search :: r.level < MAX_HEIGHT && r.x in old(list.levels)[r.level] ==>
      MovesLeft(list.levels, r) <= MovesLeft(old(list.levels), r) + if turn.Publish? then 1 else 0
  {
    hide ListOk, WriterOk, GrownFrom, MovesLeft;
    SelfGrown(list.arena, list.levels);
    match turn
    case Load =>
    case Begin(key, junk) =>
      if list.writer.None? && 1 <= |junk| <= MAX_HEIGHT {
        var known := list.Contains(key);
        if !known {
          list.StartInsert(key, |junk|, junk);
        }
      }
    case SetOwn =>
      if list.writer.Some? && !list.writer.value.own {
        list.SetOwnPointer();
      }
    case Publish =>
      if list.writer.Some? && list.writer.value.own {
        list.PublishPointer();
      }
  }
}
