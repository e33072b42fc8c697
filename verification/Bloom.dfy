/** The Bloom filter policy (util/bloom.cc, lines 17-80).  The hash is an arbitrary function. */
module Bloom {
  import opened DbFormat
  import opened Coding

  type Hash = Bytes -> Word

  const MAX_PROBES := 30

  /** The constructor's number of probes: 0.69 times the bits per key, rounded down, between 1 and 30.  Up to the bits that
      give 30, no product but 0 is near a whole number, so the rounding of the floating-point product does not matter. */
  function NumProbes(bitsPerKey: nat): (k: nat)
    ensures 1 <= k <= 30
    ensures k > 1 ==> 100 * k <= 69 * bitsPerKey
    ensures k < 30 ==> 69 * bitsPerKey < 100 * (k + 1)
  {
    var k := 69 * bitsPerKey / 100;
    if k < 1 then 1 else if k > MAX_PROBES then MAX_PROBES else k
  }

  // ---------- bits ----------

  /** `b & (1 << i)`. */
  predicate Bit(b: nat, i: nat) {
    if i == 0 then b % 2 == 1 else Bit(b / 2, i - 1)
  }

  /** `b | (1 << i)`. */
  function SetBit(b: nat, i: nat): nat {
    if i == 0 then b - b % 2 + 1 else 2 * SetBit(b / 2, i - 1) + b % 2
  }

  lemma {:induction false} SetBitSets(b: nat, i: nat, j: nat)
    ensures Bit(SetBit(b, i), j) <==> j == i || Bit(b, j)
    decreases i
  {
    if i == 0 {
      assert (b - b % 2 + 1) / 2 == b / 2;
    } else {
      var r := SetBit(b / 2, i - 1);
      assert (2 * r + b % 2) / 2 == r && (2 * r + b % 2) % 2 == b % 2;
      if j > 0 {
        SetBitSets(b / 2, i - 1, j - 1);
      }
    }
  }

  function Power2(n: nat): (r: nat)
    ensures r > 0
  {
    if n == 0 then 1 else 2 * Power2(n - 1)
  }

  /** A byte stays a byte. */
  lemma {:induction false} SetBitFits(b: nat, i: nat, n: nat)
    requires i < n && b < Power2(n)
    ensures SetBit(b, i) < Power2(n)
  {
    if i > 0 {
      SetBitFits(b / 2, i - 1, n - 1);
    }
  }

  function SetByte(b: Byte, i: nat): (r: Byte)
    requires i < 8
    ensures r == SetBit(b, i)
  {
    assert Power2(8) == 256 by {
      assert Power2(4) == 16;
    }
    SetBitFits(b, i, 8);
    SetBit(b, i)
  }

  predicate BitAt(table: Bytes, p: nat)
    requires p < 8 * |table|
  {
    Bit(table[p / 8], p % 8)
  }

  function SetBitAt(table: Bytes, p: nat): (r: Bytes)
    requires p < 8 * |table|
    ensures |r| == |table| && SetsOnly(table, p, r)
  {
    var r := table[p / 8 := SetByte(table[p / 8], p % 8)];
    assert SetsOnly(table, p, r) by {
      BitsKept(table, p, r);
    }
    r
  }

  /** Bit `p` gets set and no other changes. */
  predicate SetsOnly(before: Bytes, p: nat, after: Bytes) {
    |before| == |after| && forall q :: 0 <= q < 8 * |before| ==> (BitAt(after, q) <==> q == p || BitAt(before, q))
  }

  lemma BitsKept(table: Bytes, p: nat, r: Bytes)
    requires p < 8 * |table| && r == table[p / 8 := SetByte(table[p / 8], p % 8)]
    ensures SetsOnly(table, p, r)
  {
    forall q | 0 <= q < 8 * |table| ensures BitAt(r, q) <==> q == p || BitAt(table, q) {
      if q / 8 == p / 8 {
        SetBitSets(table[p / 8], p % 8, q % 8);
        assert q == p <==> q % 8 == p % 8;
      }
    }
  }

  /** Bits only get set. */
  ghost predicate Keeps(before: Bytes, after: Bytes) {
    |before| == |after| && forall q :: 0 <= q < 8 * |before| && BitAt(before, q) ==> BitAt(after, q)
  }

  // ---------- probes ----------

  /** Rotate right by 17 bits. */
  function Delta(h: Word): Word {
    h / 0x2_0000 + h % 0x2_0000 * 0x8000
  }

  function NextHash(h: Word, delta: Word): Word {
    var a: int, b: int := h, delta;
    (a + b) % TWO_32
  }

  /** Sets the bits of `k` probes. */
  function SetProbes(table: Bytes, h: Word, delta: Word, k: nat): (r: Bytes)
    requires |table| > 0
    ensures |r| == |table|
    decreases k
  {
    if k == 0 then table else SetProbes(SetBitAt(table, h % (8 * |table|)), NextHash(h, delta), delta, k - 1)
  }

  predicate ProbesSet(table: Bytes, h: Word, delta: Word, k: nat)
    requires |table| > 0
    decreases k
  {
    k == 0 || (BitAt(table, h % (8 * |table|)) && ProbesSet(table, NextHash(h, delta), delta, k - 1))
  }

  lemma {:induction false} SetProbesKeeps(table: Bytes, h: Word, delta: Word, k: nat)
    requires |table| > 0
    ensures Keeps(table, SetProbes(table, h, delta, k))
    decreases k
  {
    if k > 0 {
      var after := SetBitAt(table, h % (8 * |table|));
      SetProbesKeeps(after, NextHash(h, delta), delta, k - 1);
    }
  }

  lemma {:induction false} ProbesKept(before: Bytes, after: Bytes, h: Word, delta: Word, k: nat)
    requires |before| > 0 && Keeps(before, after) && ProbesSet(before, h, delta, k)
    ensures ProbesSet(after, h, delta, k)
    decreases k
  {
    if k > 0 {
      ProbesKept(before, after, NextHash(h, delta), delta, k - 1);
    }
  }

  lemma {:induction false} ProbesAreSet(table: Bytes, h: Word, delta: Word, k: nat)
    requires |table| > 0
    ensures ProbesSet(SetProbes(table, h, delta, k), h, delta, k)
    decreases k
  {
    if k > 0 {
      var after := SetBitAt(table, h % (8 * |table|));
      SetProbesKeeps(after, NextHash(h, delta), delta, k - 1);
      ProbesAreSet(after, NextHash(h, delta), delta, k - 1);
    }
  }

  // ---------- the policy ----------

  function SetKeys(hash: Hash, k: nat, keys: seq<Bytes>, table: Bytes): (r: Bytes)
    requires |table| > 0
    ensures |r| == |table|
  {
    if keys == [] then table
    else
      var h := hash(keys[|keys| - 1]);
      SetProbes(SetKeys(hash, k, keys[..|keys| - 1], table), h, Delta(h), k)
  }

  function TableSize(n: nat, bitsPerKey: nat): (r: nat)
    ensures r >= 8
  {
    ((if n * bitsPerKey < 64 then 64 else n * bitsPerKey) + 7) / 8
  }

  /** The filter for a list of keys: the bit table, then the number of probes. */
  function Filter(hash: Hash, k: nat, bitsPerKey: nat, keys: seq<Bytes>): Bytes
    requires k <= MAX_PROBES
  {
    SetKeys(hash, k, keys, seq(TableSize(|keys|, bitsPerKey), _ => 0)) + [k]
  }

  /** Sets the probes of one key. */
  method SetKey(before: Bytes, hash: Word, k: nat) returns (table: Bytes)
    requires |before| > 0
    ensures table == SetProbes(before, hash, Delta(hash), k)
  {
    hide SetBitAt, NextHash, Delta;
    table := before;
    var h: Word, delta := hash, Delta(hash);
    for j := 0 to k
      invariant |table| == |before| && SetProbes(table, h, delta, k - j) == SetProbes(before, hash, delta, k)
    {
      var p := h % (8 * |table|);
      table := SetBitAt(table, p);
      h := NextHash(h, delta);
    }
  }

  /** Appends the filter to `dst`. */
  method CreateFilter(hash: Hash, k: nat, bitsPerKey: nat, keys: seq<Bytes>, dst: Bytes) returns (r: Bytes)
    requires 1 <= k <= MAX_PROBES
    ensures r == dst + Filter(hash, k, bitsPerKey, keys)
  {
    var bits := |keys| * bitsPerKey;
    if bits < 64 {
      bits := 64;
    }
    var size := (bits + 7) / 8;
    var empty: Bytes := seq(size, _ => 0);
    var table := empty;
    for i := 0 to |keys|
      invariant table == SetKeys(hash, k, keys[..i], empty)
    {
      assert keys[..i + 1][..i] == keys[..i];
      table := SetKey(table, hash(keys[i]), k);
    }
    assert keys[..|keys|] == keys;
    r := dst + table + [k];
    assert dst + table + [k] == dst + (table + [k]);
  }

  /** What the reader tests, on any filter whatever. */
  predicate MayMatch(hash: Hash, key: Bytes, filter: Bytes) {
    |filter| >= 2 &&
    (filter[|filter| - 1] > MAX_PROBES ||
     ProbesSet(filter[..|filter| - 1], hash(key), Delta(hash(key)), filter[|filter| - 1]))
  }

  method KeyMayMatch(hash: Hash, key: Bytes, filter: Bytes) returns (r: bool)
    ensures r == MayMatch(hash, key, filter)
  {
    var len := |filter|;
    if len < 2 {
      return false;
    }
    var bits := (len - 1) * 8;
    var k: nat := filter[len - 1];
    if k > MAX_PROBES {
      return true;
    }
    hide NextHash, Delta;
    var h: Word, delta := hash(key), Delta(hash(key));
    ghost var table := filter[..len - 1];
    for j := 0 to k
      invariant ProbesSet(table, h, delta, k - j) == ProbesSet(table, hash(key), delta, k)
    {
      var p := h % bits;
      if !Bit(filter[p / 8], p % 8) {
        return false;
      }
      assert BitAt(table, h % (8 * |table|));
      h := NextHash(h, delta);
    }
    r := true;
  }

  lemma {:induction false} KeysAreSet(hash: Hash, k: nat, keys: seq<Bytes>, table: Bytes, key: Bytes)
    requires |table| > 0 && key in keys
    ensures ProbesSet(SetKeys(hash, k, keys, table), hash(key), Delta(hash(key)), k)
  {
    var front, last := keys[..|keys| - 1], keys[|keys| - 1];
    var before := SetKeys(hash, k, front, table);
    var h := hash(last);
    if key == last {
      ProbesAreSet(before, h, Delta(h), k);
    } else {
      assert keys == front + [last];
      KeysAreSet(hash, k, front, table, key);
      SetProbesKeeps(before, h, Delta(h), k);
      ProbesKept(before, SetProbes(before, h, Delta(h), k), hash(key), Delta(hash(key)), k);
    }
  }

  /** No false negatives, whatever the hash. */
  lemma NoFalseNegatives(hash: Hash, k: nat, bitsPerKey: nat, keys: seq<Bytes>, key: Bytes)
    requires 1 <= k <= MAX_PROBES && key in keys
    ensures MayMatch(hash, key, Filter(hash, k, bitsPerKey, keys))
  {
    var empty: Bytes := seq(TableSize(|keys|, bitsPerKey), _ => 0);
    KeysAreSet(hash, k, keys, empty, key);
    var f := Filter(hash, k, bitsPerKey, keys);
    assert f[..|f| - 1] == SetKeys(hash, k, keys, empty);
  }

  // ---------- which bits are set ----------

  /** The rotation moves bit `i + 17` to place `i`, around the end of the word. */
  lemma DeltaRotates(h: Word, i: nat)
    requires i < 32
    ensures Bit(Delta(h), i) <==> Bit(h, (i + 17) % 32)
  {
    hide Bit, Delta, Power2;
    DeltaParts(h);
    var high, low := Divided(h, Power2(17)), Remainder(h, Power2(17));
    if i < 15 {
      BitAbove(low, high, 15, i);
      BitShift(h, 17, i);
    } else {
      BitOfSum(low, high, 15, i);
      BitBelow(h, 17, i - 15);
    }
  }

  lemma DeltaParts(h: Word)
    ensures Delta(h) == Divided(h, Power2(17)) + Remainder(h, Power2(17)) * Power2(15)
    ensures Divided(h, Power2(17)) < Power2(15)
  {
    PowersOfTwo();
  }

  lemma PowersOfTwo()
    ensures Power2(15) == 0x8000 && Power2(17) == 0x2_0000
  {
    assert Power2(5) == 32 && Power2(10) == 1024 by {
      assert Power2(8) == 256;
    }
    assert Power2(13) == 8192;
    assert Power2(15) == 0x8000;
  }

  function Divided(b: nat, p: nat): nat
    requires p > 0
  {
    b / p
  }

  /** `b >> n`. */
  lemma {:induction false} BitShift(b: nat, n: nat, i: nat)
    ensures Bit(Divided(b, Power2(n)), i) <==> Bit(b, i + n)
    decreases n
  {
    hide Divided;
    if n > 0 {
      BitShift(b / 2, n - 1, i);
      DivideTwice(b, Power2(n - 1));
    } else {
      DivideByOne(b);
    }
  }

  lemma DivideByOne(b: nat)
    ensures Divided(b, 1) == b
  {
  }

  lemma DivideTwice(b: nat, p: nat)
    requires p > 0
    ensures Divided(b / 2, p) == Divided(b, 2 * p)
  {
    var q, r := b / 2, b % 2;
    var t, u := q / p, q % p;
    assert b == 2 * (t * p + u) + r;
    assert b == t * (2 * p) + (2 * u + r);
    assert 0 <= 2 * u + r < 2 * p;
    Quotient(b, 2 * p, t, 2 * u + r);
  }

  lemma Quotient(b: nat, p: nat, t: nat, r: nat)
    requires p > 0 && b == t * p + r && r < p
    ensures b / p == t && b % p == r
  {
    var q, s := b / p, b % p;
    assert b == q * p + s;
    if q < t {
      OneMoreTimes(q, t, p);
    } else if t < q {
      OneMoreTimes(t, q, p);
    }
  }

  lemma OneMoreTimes(q: nat, t: nat, p: nat)
    requires q < t
    ensures t * p >= q * p + p
  {
    var e: nat := t - q - 1;
    assert t * p == q * p + p + e * p && e * p >= 0;
  }

  /** Low bits of `low * 2^n + high` when `high` is below 2^n. */
  lemma {:induction false} BitAbove(low: nat, high: nat, n: nat, i: nat)
    requires i < n && high < Power2(n)
    ensures Bit(high + low * Power2(n), i) <==> Bit(high, i)
    decreases n
  {
    var p := Power2(n - 1);
    assert low * Power2(n) == 2 * (low * p);
    Halves(high, low * p);
    if i > 0 {
      BitAbove(low, high / 2, n - 1, i - 1);
    }
  }

  lemma Halves(a: nat, b: nat)
    ensures (a + 2 * b) / 2 == a / 2 + b && (a + 2 * b) % 2 == a % 2
  {
  }

  lemma {:induction false} BitOfSum(low: nat, high: nat, n: nat, i: nat)
    requires n <= i && high < Power2(n)
    ensures Bit(high + low * Power2(n), i) <==> Bit(low, i - n)
    decreases n
  {
    if n > 0 {
      var p := Power2(n - 1);
      assert low * Power2(n) == 2 * (low * p);
      Halves(high, low * p);
      BitOfSum(low, high / 2, n - 1, i - 1);
    }
  }

  function Remainder(b: nat, p: nat): nat
    requires p > 0
  {
    b % p
  }

  lemma {:induction false} BitBelow(b: nat, n: nat, i: nat)
    requires i < n
    ensures Bit(Remainder(b, Power2(n)), i) <==> Bit(b, i)
    decreases n
  {
    var p := Power2(n - 1);
    var q, r := b / (2 * p), b % (2 * p);
    assert b == r + 2 * (q * p);
    Halves(r, q * p);
    if i > 0 {
      assert b / 2 == r / 2 + q * p;
      Quotient(b / 2, p, q, r / 2);
      BitBelow(b / 2, n - 1, i - 1);
    }
  }

  /** Probe `j` of a key. */
  function Probe(h: Word, delta: Word, j: nat): Word {
    var a: int, b: int := h, delta;
    (a + j * b) % TWO_32
  }

  lemma ProbeNext(h: Word, delta: Word, j: nat)
    ensures Probe(NextHash(h, delta), delta, j) == Probe(h, delta, j + 1)
  {
    var a: int, b: int := h, delta;
    var q := (a + b) / TWO_32;
    assert a + b == q * TWO_32 + (a + b) % TWO_32;
    assert (j + 1) * b == j * b + b;
    assert a + (j + 1) * b == (a + b) % TWO_32 + j * b + q * TWO_32;
    CutAway((a + b) % TWO_32 + j * b, q);
  }

  lemma CutAway(x: nat, q: nat)
    ensures (x + q * TWO_32) % TWO_32 == x % TWO_32
  {
    Quotient(x + q * TWO_32, TWO_32, x / TWO_32 + q, x % TWO_32);
  }

  /** Place `q` is that of one of the first `k` probes. */
  ghost predicate Probed(h: Word, delta: Word, k: nat, bits: nat, q: nat)
    requires bits > 0
  {
    exists j :: 0 <= j < k && Probe(h, delta, j) % bits == q
  }

  lemma ProbedNext(h: Word, delta: Word, k: nat, bits: nat, q: nat)
    requires bits > 0 && k > 0
    ensures Probed(h, delta, k, bits, q) <==> h % bits == q || Probed(NextHash(h, delta), delta, k - 1, bits, q)
  {
    hide Probe, NextHash;
    assert Probe(h, delta, 0) == h by {
      FirstProbe(h, delta);
    }
    if Probed(h, delta, k, bits, q) {
      var j :| 0 <= j < k && Probe(h, delta, j) % bits == q;
      if j > 0 {
        ProbeNext(h, delta, j - 1);
      }
    }
    if Probed(NextHash(h, delta), delta, k - 1, bits, q) {
      var j :| 0 <= j < k - 1 && Probe(NextHash(h, delta), delta, j) % bits == q;
      ProbeNext(h, delta, j);
    }
  }

  lemma FirstProbe(h: Word, delta: Word)
    ensures Probe(h, delta, 0) == h
  {
  }

  lemma {:induction false} ProbesExactly(table: Bytes, h: Word, delta: Word, k: nat, q: nat)
    requires |table| > 0 && q < 8 * |table|
    ensures BitAt(SetProbes(table, h, delta, k), q) <==> BitAt(table, q) || Probed(h, delta, k, 8 * |table|, q)
    decreases k
  {
    hide SetBitAt, NextHash, Probed, BitAt;
    if k > 0 {
      var after := SetBitAt(table, h % (8 * |table|));
      ProbesExactly(after, NextHash(h, delta), delta, k - 1, q);
      ProbedNext(h, delta, k, 8 * |table|, q);
      assert SetsOnly(table, h % (8 * |table|), after);
    } else {
      assert !Probed(h, delta, 0, 8 * |table|, q) by {
        NeverProbed(h, delta, 8 * |table|, q);
      }
    }
  }

  lemma NeverProbed(h: Word, delta: Word, bits: nat, q: nat)
    requires bits > 0
    ensures !Probed(h, delta, 0, bits, q)
  {
  }

  /** Place `q` is probed for one of the keys. */
  ghost predicate KeyProbes(hash: Hash, k: nat, keys: seq<Bytes>, bits: nat, q: nat)
    requires bits > 0
  {
    exists key :: key in keys && Probed(hash(key), Delta(hash(key)), k, bits, q)
  }

  lemma {:induction false} KeysExactly(hash: Hash, k: nat, keys: seq<Bytes>, table: Bytes, q: nat)
    requires |table| > 0 && q < 8 * |table|
    ensures BitAt(SetKeys(hash, k, keys, table), q) <==> BitAt(table, q) || KeyProbes(hash, k, keys, 8 * |table|, q)
    decreases |keys|
  {
    hide SetProbes, Probed, BitAt, Delta;
    if keys != [] {
      var front, last := keys[..|keys| - 1], keys[|keys| - 1];
      assert keys == front + [last];
      KeysExactly(hash, k, front, table, q);
      ProbesExactly(SetKeys(hash, k, front, table), hash(last), Delta(hash(last)), k, q);
      assert last in keys && forall key :: key in keys <==> key in front || key == last;
    }
  }

  /** What a filter is, for every hash: a table of at least 64 bits and of as many as were asked for, up to a whole byte;
      in it exactly the bits of the probes of its keys; and then the number of probes. */
  lemma FilterIs(hash: Hash, k: nat, bitsPerKey: nat, keys: seq<Bytes>)
    requires k <= MAX_PROBES
    ensures
      var f := Filter(hash, k, bitsPerKey, keys);
      && |f| > 8 && f[|f| - 1] == k
      && var table, bits, asked := f[..|f| - 1], 8 * (|f| - 1), |keys| * bitsPerKey;
         && bits >= asked && (if asked <= 64 then bits == 64 else bits < asked + 8)
         && forall q :: 0 <= q < bits ==> (BitAt(table, q) <==> KeyProbes(hash, k, keys, bits, q))
  {
    hide SetKeys, KeyProbes, BitAt;
    var empty: Bytes := seq(TableSize(|keys|, bitsPerKey), _ => 0);
    var f := Filter(hash, k, bitsPerKey, keys);
    var table := f[..|f| - 1];
    assert table == SetKeys(hash, k, keys, empty);
    forall q | 0 <= q < 8 * |table| ensures BitAt(table, q) <==> KeyProbes(hash, k, keys, 8 * |table|, q) {
      KeysExactly(hash, k, keys, empty, q);
      NotSet(empty, q);
    }
  }

  lemma NotSet(table: Bytes, q: nat)
    requires q < 8 * |table| && forall i :: 0 <= i < |table| ==> table[i] == 0
    ensures !BitAt(table, q)
  {
    ZeroBits(q % 8);
  }

  lemma {:induction false} ZeroBits(i: nat)
    ensures !Bit(0, i)
  {
    if i > 0 {
      ZeroBits(i - 1);
    }
  }

  lemma {:induction false} SetMeans(table: Bytes, h: Word, delta: Word, k: nat)
    requires |table| > 0
    ensures ProbesSet(table, h, delta, k) <==>
      forall q :: 0 <= q < 8 * |table| && Probed(h, delta, k, 8 * |table|, q) ==> BitAt(table, q)
    decreases k
  {
    hide NextHash, Probed, BitAt;
    var bits := 8 * |table|;
    if k > 0 {
      SetMeans(table, NextHash(h, delta), delta, k - 1);
      forall q | 0 <= q < bits
        ensures Probed(h, delta, k, bits, q) <==> h % bits == q || Probed(NextHash(h, delta), delta, k - 1, bits, q)
      {
        ProbedNext(h, delta, k, bits, q);
      }
    } else {
      forall q | 0 <= q < bits ensures !Probed(h, delta, 0, bits, q) {
        NeverProbed(h, delta, bits, q);
      }
    }
  }

  /** What the reader tests: a filter matches exactly the keys all of whose probes hit set bits. */
  lemma MatchIs(hash: Hash, key: Bytes, filter: Bytes)
    requires |filter| >= 2 && filter[|filter| - 1] <= 30
    ensures
      var table, bits := filter[..|filter| - 1], 8 * (|filter| - 1);
      MayMatch(hash, key, filter) <==>
      forall q :: 0 <= q < bits && Probed(hash(key), Delta(hash(key)), filter[|filter| - 1], bits, q) ==> BitAt(table, q)
  {
    hide ProbesSet, Probed, BitAt, Delta;
    SetMeans(filter[..|filter| - 1], hash(key), Delta(hash(key)), filter[|filter| - 1]);
  }
}
