/** The checksum: four interleaved partial results against one byte at a time (util/crc32c.cc, lines
    270-377; CRC32C as in section 12.1 of RFC 3720).

    A word is its 32 bits, lowest bit first, and a byte its 8 bits; reading a little-endian word is then
    concatenation.  Table lookups are functions of a byte: the byte table holds the CRC of each byte, and an
    entry of a stride table is its byte advanced over sixteen zero bytes.  The accelerated variant is not part
    of this model. */
module Crc32c {

  type Bits = seq<bool>
  type Byte = b: Bits | |b| == 8 witness NO_BITS
  type Word = w: Bits | |w| == 32 witness NO_BITS + NO_BITS + NO_BITS + NO_BITS

  const NO_BITS: Bits := [false, false, false, false, false, false, false, false]

  // ---------- words ----------

  function Xor(a: Word, b: Word): Word {
    seq(32, i requires 0 <= i < 32 => a[i] != b[i])
  }

  const ZERO: Word := NO_BITS + NO_BITS + NO_BITS + NO_BITS

  function Ones(): Word {
    seq(32, _ => true)
  }

  /** A byte as a word. */
  function Low(b: Byte): Word {
    b + NO_BITS + NO_BITS + NO_BITS
  }

  /** `x >> 8`. */
  function Down(x: Word): Word {
    x[8..] + NO_BITS
  }

  lemma XorAssociative(a: Word, b: Word, c: Word)
    ensures Xor(Xor(a, b), c) == Xor(a, Xor(b, c))
  {
  }

  lemma XorCommutes(a: Word, b: Word)
    ensures Xor(a, b) == Xor(b, a)
  {
  }

  lemma XorSelf(a: Word, b: Word)
    ensures Xor(Xor(a, b), b) == a && Xor(a, ZERO) == a && Xor(ZERO, a) == a
  {
  }

  // ---------- the specification ----------

  /** 0x82f63b78, the reflected polynomial, lowest bit first. */
  const POLYNOMIAL: Word := [
    false, false, false, true, true, true, true, false,
    true, true, false, true, true, true, false, false,
    false, true, true, false, true, true, true, true,
    false, true, false, false, false, false, false, true]

  function Shift(x: Word): Word {
    seq(32, i requires 0 <= i < 32 => (i < 31 && x[i + 1]) != (x[0] && POLYNOMIAL[i]))
  }

  function Shifts(n: nat, x: Word): Word {
    if n == 0 then x else Shift(Shifts(n - 1, x))
  }

  /** Advance over `n` zero bytes. */
  function Zeros(n: nat, x: Word): Word {
    Shifts(8 * n, x)
  }

  /** One byte at a time. */
  function Advance(l: Word, data: seq<Byte>): Word {
    if data == [] then l else Zeros(1, Xor(Advance(l, data[..|data| - 1]), Low(data[|data| - 1])))
  }

  function Crc(crc: Word, data: seq<Byte>): Word {
    Xor(Advance(Xor(crc, Ones()), data), Ones())
  }

  // ---------- linearity ----------

  lemma ShiftLinear(a: Word, b: Word)
    ensures Shift(Xor(a, b)) == Xor(Shift(a), Shift(b))
  {
    forall i | 0 <= i < 32 ensures Shift(Xor(a, b))[i] == Xor(Shift(a), Shift(b))[i] {
      assert Xor(a, b)[0] == (a[0] != b[0]);
      assert i < 31 ==> Xor(a, b)[i + 1] == (a[i + 1] != b[i + 1]);
    }
  }

  lemma {:induction false} ShiftsLinear(n: nat, a: Word, b: Word)
    ensures Shifts(n, Xor(a, b)) == Xor(Shifts(n, a), Shifts(n, b))
  {
    hide Shift, Xor;
    if n > 0 {
      ShiftsLinear(n - 1, a, b);
      ShiftLinear(Shifts(n - 1, a), Shifts(n - 1, b));
    }
  }

  lemma {:induction false} ShiftsAdd(m: nat, n: nat, x: Word)
    ensures Shifts(m + n, x) == Shifts(m, Shifts(n, x))
  {
    hide Shift;
    if m > 0 {
      ShiftsAdd(m - 1, n, x);
    }
  }

  lemma ZerosLinear(n: nat, a: Word, b: Word)
    ensures Zeros(n, Xor(a, b)) == Xor(Zeros(n, a), Zeros(n, b))
  {
    ShiftsLinear(8 * n, a, b);
  }

  lemma ZerosAdd(m: nat, n: nat, x: Word)
    ensures Zeros(m + n, x) == Zeros(m, Zeros(n, x))
  {
    ShiftsAdd(8 * m, 8 * n, x);
    assert 8 * (m + n) == 8 * m + 8 * n;
  }

  /** A state is advanced over data as over zeros, apart from what the data contribute by themselves. */
  lemma {:induction false} AdvanceLinear(l: Word, m: Word, data: seq<Byte>)
    ensures Advance(Xor(l, m), data) == Xor(Zeros(|data|, l), Advance(m, data))
  {
    hide Shifts, Zeros, Xor, Low;
    if data == [] {
      ZerosNone(l);
    } else {
      var front := data[..|data| - 1];
      var b := Low(data[|data| - 1]);
      AdvanceLinear(l, m, front);
      var x, y := Zeros(|front|, l), Advance(m, front);
      XorAssociative(x, y, b);
      ZerosLinear(1, x, Xor(y, b));
      ZerosAdd(1, |front|, l);
    }
  }

  lemma ZerosNone(l: Word)
    ensures Zeros(0, l) == l
  {
  }

  lemma {:induction false} AdvanceConcat(l: Word, a: seq<Byte>, b: seq<Byte>)
    ensures Advance(l, a + b) == Advance(Advance(l, a), b)
  {
    hide Zeros, Xor, Low;
    if b == [] {
      assert a + b == a;
    } else {
      AdvanceConcat(l, a, b[..|b| - 1]);
      assert (a + b)[..|a + b| - 1] == a + b[..|b| - 1];
    }
  }

  /** Extending by two strings in turn is extending by their concatenation. */
  lemma ExtendComposes(crc: Word, a: seq<Byte>, b: seq<Byte>)
    ensures Crc(Crc(crc, a), b) == Crc(crc, a + b)
  {
    hide Zeros, Xor, Advance;
    AdvanceConcat(Xor(crc, Ones()), a, b);
    XorSelf(Advance(Xor(crc, Ones()), a), Ones());
  }

  // ---------- table steps ----------

  function XorByte(a: Byte, b: Byte): Byte {
    seq(8, i requires 0 <= i < 8 => a[i] != b[i])
  }

  /** The tables: what a byte becomes after one zero byte, and what the byte at each place of a word becomes
      after sixteen. */
  datatype Tables = Tables(byte: Byte -> Word, stride0: Byte -> Word, stride1: Byte -> Word, stride2: Byte -> Word,
                           stride3: Byte -> Word)

  ghost predicate TablesOk(t: Tables) {
    forall b: Byte ::
      && t.byte(b) == Zeros(1, Low(b))
      && t.stride3(b) == Zeros(16, Low(b))
      && t.stride2(b) == Zeros(16, NO_BITS + b + NO_BITS + NO_BITS)
      && t.stride1(b) == Zeros(16, NO_BITS + NO_BITS + b + NO_BITS)
      && t.stride0(b) == Zeros(16, NO_BITS + NO_BITS + NO_BITS + b)
  }

  /** Such tables exist. */
  lemma TablesExist()
    ensures TablesOk(Tables(b => Zeros(1, Low(b)), b => Zeros(16, NO_BITS + NO_BITS + NO_BITS + b),
                            b => Zeros(16, NO_BITS + NO_BITS + b + NO_BITS),
                            b => Zeros(16, NO_BITS + b + NO_BITS + NO_BITS), b => Zeros(16, Low(b))))
  {
    hide Zeros;
  }

  lemma {:induction false} ShiftsDown(n: nat, x: Word)
    requires n <= 32 && forall i :: 0 <= i < n ==> !x[i]
    ensures forall i :: 0 <= i < 32 ==> Shifts(n, x)[i] == (i + n < 32 && x[i + n])
  {
    if n > 0 {
      ShiftsDown(n - 1, x);
      var y := Shifts(n - 1, x);
      assert !y[0];
    }
  }

  /** Without its low byte, a word is moved down by a zero byte. */
  lemma HighMovesDown(x: Word)
    ensures Zeros(1, NO_BITS + x[8..]) == Down(x)
  {
    ShiftsDown(8, NO_BITS + x[8..]);
  }

  /** A zero byte: look up the low byte, move the others down. */
  lemma ZeroByTable(x: Word)
    ensures Zeros(1, x) == Xor(Zeros(1, Low(x[..8])), Down(x))
  {
    assert x == Xor(Low(x[..8]), NO_BITS + x[8..]);
    HighMovesDown(x);
    hide Zeros, Xor, Down;
    ZerosLinear(1, Low(x[..8]), NO_BITS + x[8..]);
  }

  /** One byte of a word: the rest of the word moves down. */
  lemma WordByte(l: Word, w: Word)
    ensures Zeros(1, Xor(l, w)) == Xor(Zeros(1, Xor(l, Low(w[..8]))), Down(w))
  {
    assert Xor(l, w) == Xor(Xor(l, Low(w[..8])), NO_BITS + w[8..]);
    HighMovesDown(w);
    hide Zeros, Xor, Down;
    ZerosLinear(1, Xor(l, Low(w[..8])), NO_BITS + w[8..]);
  }

  function ReadWord(d: seq<Byte>, p: nat): Word
    requires p + 4 <= |d|
  {
    var a: Bits, b: Bits, c: Bits, e: Bits := d[p], d[p + 1], d[p + 2], d[p + 3];
    a + b + c + e
  }

  /** Four bytes can be taken in as one word. */
  lemma WordAdvances(l: Word, d: seq<Byte>)
    requires |d| == 4
    ensures Zeros(4, Xor(l, ReadWord(d, 0))) == Advance(l, d)
  {
    var w := ReadWord(d, 0);
    var w1, w2, w3 := d[1] + d[2] + d[3] + NO_BITS, d[2] + d[3] + NO_BITS + NO_BITS, d[3] + NO_BITS + NO_BITS + NO_BITS;
    assert w[..8] == d[0] && Down(w) == w1;
    assert w1[..8] == d[1] && Down(w1) == w2;
    assert w2[..8] == d[2] && Down(w2) == w3;
    assert w3 == Low(d[3]);
    hide Zeros, Xor, Down, Low, ReadWord;
    var l1 := Zeros(1, Xor(l, Low(d[0])));
    var l2 := Zeros(1, Xor(l1, Low(d[1])));
    var l3 := Zeros(1, Xor(l2, Low(d[2])));
    WordByte(l, w);
    WordByte(l1, w1);
    WordByte(l2, w2);
    ZerosAdd(3, 1, Xor(l, w));
    ZerosAdd(2, 1, Xor(l1, w1));
    ZerosAdd(1, 1, Xor(l2, w2));
    FourBytes(l, d);
  }

  lemma FourBytes(l: Word, d: seq<Byte>)
    requires |d| == 4
    ensures Advance(l, d) ==
      Zeros(1, Xor(Zeros(1, Xor(Zeros(1, Xor(Zeros(1, Xor(l, Low(d[0]))), Low(d[1]))), Low(d[2]))), Low(d[3])))
  {
    hide Zeros, Xor, Low;
    assert d[..3][..2] == d[..2] && d[..2][..1] == d[..1] && d[..1][..0] == [];
    assert Advance(l, d[..1]) == Zeros(1, Xor(l, Low(d[0])));
    assert Advance(l, d[..2]) == Zeros(1, Xor(Advance(l, d[..1]), Low(d[1])));
    assert Advance(l, d[..3]) == Zeros(1, Xor(Advance(l, d[..2]), Low(d[2])));
  }

  /** `STEP1`. */
  method Step(t: Tables, l: Word, b: Byte) returns (r: Word)
    requires TablesOk(t)
    ensures r == Zeros(1, Xor(l, Low(b)))
  {
    var c := XorByte(l[..8], b);
    r := Xor(t.byte(c), Down(l));
    ghost var x := Xor(l, Low(b));
    assert x[..8] == c && Down(x) == Down(l);
    ZeroByTable(x);
  }

  /** `STEP4W`. */
  method StepWord(t: Tables, l: Word, word: Word) returns (r: Word)
    requires TablesOk(t)
    ensures r == Zeros(4, Xor(l, word))
  {
    hide Zeros, Xor, Down, Low;
    var w := Xor(word, l);
    XorCommutes(word, l);
    ghost var start := w;
    ZerosNone(start);
    for i := 0 to 4
      invariant w == Zeros(i, start)
    {
      ZeroByTable(w);
      XorCommutes(Down(w), t.byte(w[..8]));
      ZerosAdd(1, i, start);
      w := Xor(Down(w), t.byte(w[..8]));
    }
    r := w;
  }

  lemma FourParts(x: Word)
    ensures x == Xor(Xor(Xor(Low(x[..8]), NO_BITS + x[8..16] + NO_BITS + NO_BITS),
                         NO_BITS + NO_BITS + x[16..24] + NO_BITS), NO_BITS + NO_BITS + NO_BITS + x[24..])
  {
  }

  /** `STEP4`: sixteen zero bytes by table, then the next word. */
  method StepStride(t: Tables, crc: Word, w: Word) returns (r: Word)
    requires TablesOk(t)
    ensures r == Xor(w, Zeros(16, crc))
  {
    hide Zeros, Xor;
    var x3, x2, x1, x0 := t.stride3(crc[..8]), t.stride2(crc[8..16]), t.stride1(crc[16..24]), t.stride0(crc[24..]);
    r := Xor(Xor(Xor(Xor(w, x3), x2), x1), x0);
    FourParts(crc);
    var a, b := Low(crc[..8]), NO_BITS + crc[8..16] + NO_BITS + NO_BITS;
    var c, d := NO_BITS + NO_BITS + crc[16..24] + NO_BITS, NO_BITS + NO_BITS + NO_BITS + crc[24..];
    ZerosLinear(16, Xor(Xor(a, b), c), d);
    ZerosLinear(16, Xor(a, b), c);
    ZerosLinear(16, a, b);
    XorAssociative(w, x3, x2);
    XorAssociative(w, Xor(x3, x2), x1);
    XorAssociative(w, Xor(Xor(x3, x2), x1), x0);
  }

  // ---------- the strided loop ----------

  /** What the four partial results stand for. */
  function Fold(c0: Word, c1: Word, c2: Word, c3: Word): Word {
    Xor(Xor(Zeros(16, c0), Zeros(12, c1)), Xor(Zeros(8, c2), Zeros(4, c3)))
  }

  /** The final combination computes what the partial results stand for. */
  lemma FoldIsCombined(c0: Word, c1: Word, c2: Word, c3: Word)
    ensures Fold(c0, c1, c2, c3) ==
            Zeros(4, Xor(Zeros(4, Xor(Zeros(4, Xor(Zeros(4, Xor(ZERO, c0)), c1)), c2)), c3))
  {
    hide Zeros, Xor;
    XorSelf(c0, ZERO);
    var a := Zeros(4, c0);
    ZerosLinear(4, a, c1);
    ZerosAdd(4, 4, c0);
    var b := Xor(Zeros(8, c0), Zeros(4, c1));
    ZerosLinear(4, b, c2);
    ZerosLinear(4, Zeros(8, c0), Zeros(4, c1));
    ZerosAdd(4, 8, c0);
    ZerosAdd(4, 4, c1);
    var c := Xor(Xor(Zeros(12, c0), Zeros(8, c1)), Zeros(4, c2));
    ZerosLinear(4, c, c3);
    ZerosLinear(4, Xor(Zeros(12, c0), Zeros(8, c1)), Zeros(4, c2));
    ZerosLinear(4, Zeros(12, c0), Zeros(8, c1));
    ZerosAdd(4, 12, c0);
    ZerosAdd(4, 8, c1);
    ZerosAdd(4, 4, c2);
    XorAssociative(Xor(Zeros(16, c0), Zeros(12, c1)), Zeros(8, c2), Zeros(4, c3));
  }

  /** One more word: the oldest partial result takes it in and becomes the newest. */
  lemma FoldWord(c0: Word, c1: Word, c2: Word, c3: Word, w: Word)
    ensures Fold(c1, c2, c3, Xor(w, Zeros(16, c0))) == Zeros(4, Xor(Fold(c0, c1, c2, c3), w))
  {
    hide Zeros, Xor;
    var a, b, c, d := Zeros(16, c0), Zeros(12, c1), Zeros(8, c2), Zeros(4, c3);
    var f := Fold(c0, c1, c2, c3);
    ZerosLinear(4, f, w);
    ZerosLinear(4, Xor(a, b), Xor(c, d));
    ZerosLinear(4, a, b);
    ZerosLinear(4, c, d);
    ZerosAdd(4, 12, c1);
    ZerosAdd(4, 8, c2);
    ZerosAdd(4, 4, c3);
    ZerosLinear(4, w, a);
    WordRearranged(Zeros(4, a), Zeros(16, c1), Zeros(12, c2), Zeros(8, c3), Zeros(4, w));
  }

  lemma WordRearranged(a: Word, b: Word, c: Word, d: Word, w: Word)
    ensures Xor(Xor(b, c), Xor(d, Xor(w, a))) == Xor(Xor(Xor(a, b), Xor(c, d)), w)
  {
  }

  /** The next word of the buffer. */
  lemma WordStep(l: Word, data: seq<Byte>, p: nat)
    requires p + 4 <= |data|
    ensures Zeros(4, Xor(Advance(l, data[..p]), ReadWord(data, p))) == Advance(l, data[..p + 4])
  {
    var d := data[p..p + 4];
    assert ReadWord(d, 0) == ReadWord(data, p);
    assert data[..p + 4] == data[..p] + d;
    hide Zeros, Xor, ReadWord;
    WordAdvances(Advance(l, data[..p]), d);
    AdvanceConcat(l, data[..p], d);
  }

  /** `STEP1` up to position `end`. */
  method Bytewise(t: Tables, start: Word, data: seq<Byte>, begin: nat, end: nat, ghost l0: Word) returns (l: Word)
    requires TablesOk(t) && begin <= end <= |data| && start == Advance(l0, data[..begin])
    ensures l == Advance(l0, data[..end])
  {
    hide Zeros, Xor, TablesOk;
    l := start;
    for p := begin to end
      invariant l == Advance(l0, data[..p])
    {
      assert data[..p + 1][..p] == data[..p];
      l := Step(t, l, data[p]);
    }
  }

  /** The first swath: words as they are, the state folded into the first. */
  lemma FirstSwath(l0: Word, data: seq<Byte>, p: nat, l: Word)
    requires p + 16 <= |data| && l == Advance(l0, data[..p])
    ensures Fold(Xor(ReadWord(data, p), l), ReadWord(data, p + 4), ReadWord(data, p + 8), ReadWord(data, p + 12)) ==
            Advance(l0, data[..p + 16])
  {
    hide Zeros, Xor, ReadWord, Fold, Advance;
    var w0, w1, w2, w3 := ReadWord(data, p), ReadWord(data, p + 4), ReadWord(data, p + 8), ReadWord(data, p + 12);
    FoldIsCombined(Xor(w0, l), w1, w2, w3);
    XorSelf(Xor(w0, l), ZERO);
    XorCommutes(w0, l);
    WordStep(l0, data, p);
    WordStep(l0, data, p + 4);
    WordStep(l0, data, p + 8);
    WordStep(l0, data, p + 12);
  }

  /** `STEP16` and the word loop. */
  method Strides(t: Tables, start: Word, data: seq<Byte>, begin: nat, ghost l0: Word) returns (l: Word, p: nat)
    requires TablesOk(t) && begin + 16 <= |data| && start == Advance(l0, data[..begin])
    ensures begin <= p <= |data| < p + 4 && l == Advance(l0, data[..p])
  {
    hide Zeros, Xor, ReadWord, Fold, Advance, TablesOk;
    var c0, c1 := Xor(ReadWord(data, begin), start), ReadWord(data, begin + 4);
    var c2, c3 := ReadWord(data, begin + 8), ReadWord(data, begin + 12);
    FirstSwath(l0, data, begin, start);
    p := begin + 16;
    while |data| - p >= 16
      invariant begin <= p <= |data| && Fold(c0, c1, c2, c3) == Advance(l0, data[..p])
    {
      var w0, w1, w2, w3 := ReadWord(data, p), ReadWord(data, p + 4), ReadWord(data, p + 8), ReadWord(data, p + 12);
      var d0 := StepStride(t, c0, w0);
      var d1 := StepStride(t, c1, w1);
      var d2 := StepStride(t, c2, w2);
      var d3 := StepStride(t, c3, w3);
      FoldWord(c0, c1, c2, c3, w0);
      FoldWord(c1, c2, c3, d0, w1);
      FoldWord(c2, c3, d0, d1, w2);
      FoldWord(c3, d0, d1, d2, w3);
      WordStep(l0, data, p);
      WordStep(l0, data, p + 4);
      WordStep(l0, data, p + 8);
      WordStep(l0, data, p + 12);
      c0, c1, c2, c3 := d0, d1, d2, d3;
      p := p + 16;
    }
    while |data| - p >= 4
      invariant begin <= p <= |data| && Fold(c0, c1, c2, c3) == Advance(l0, data[..p])
    {
      var w := ReadWord(data, p);
      var tmp := StepStride(t, c0, w);
      FoldWord(c0, c1, c2, c3, w);
      WordStep(l0, data, p);
      c0, c1, c2, c3 := c1, c2, c3, tmp;
      p := p + 4;
    }
    FoldIsCombined(c0, c1, c2, c3);
    l := StepWord(t, ZERO, c0);
    l := StepWord(t, l, c1);
    l := StepWord(t, l, c2);
    l := StepWord(t, l, c3);
  }

  /** `Extend` for a buffer at any address: bytes up to a word boundary, then swaths and words, then bytes. */
  method Extend(t: Tables, crc: Word, data: seq<Byte>, address: nat) returns (r: Word)
    requires TablesOk(t)
    ensures r == Crc(crc, data)
  {
    hide Zeros, Xor, TablesOk, Advance;
    ghost var l0 := Xor(crc, Ones());
    var l, p := Xor(crc, Ones()), 0;
    assert l == Advance(l0, data[..0]) by {
      NoData(l0);
    }
    var x := (4 - address % 4) % 4;
    if x <= |data| {
      l := Bytewise(t, l, data, 0, x, l0);
      p := x;
    }
    if |data| - p >= 16 {
      l, p := Strides(t, l, data, p, l0);
    }
    l := Bytewise(t, l, data, p, |data|, l0);
    assert data[..|data|] == data;
    r := Xor(l, Ones());
  }

  lemma NoData(l: Word)
    ensures Advance(l, []) == l
  {
  }
}
