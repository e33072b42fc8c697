/** The log format: records cut into fragments that never cross a block boundary (db/log_format.h, lines
    14-33; db/log_writer.cc, lines 34-108; db/log_reader.cc, lines 56-271; util/crc32c.h, lines 23-40).

    The checksum is an arbitrary function of type and payload, so everything here holds for each one.  Files
    are read from the beginning (initial offset 0). */
module LogFormat {
  import opened DbFormat
  import opened Coding

  const BLOCK_SIZE := 32768
  const HEADER_SIZE := 7

  const FULL: Byte := 1
  const FIRST: Byte := 2
  const MIDDLE: Byte := 3
  const LAST: Byte := 4

  type Checksum = Bytes -> Word

  // ---------- masked checksums ----------

  const MASK_DELTA: Word := 0xa282ead8

  /** Rotate right by 15 bits and add a constant. */
  function Mask(crc: Word): Word {
    (crc / 0x8000 + crc % 0x8000 * 0x2_0000 + MASK_DELTA) % 0x1_0000_0000
  }

  function Unmask(masked: Word): Word {
    var rot := (masked - MASK_DELTA) % 0x1_0000_0000;
    rot / 0x2_0000 + rot % 0x2_0000 * 0x8000
  }

  lemma UnmaskMask(crc: Word)
    ensures Unmask(Mask(crc)) == crc
  {
    var rotated := crc / 0x8000 + crc % 0x8000 * 0x2_0000;
    assert 0 <= rotated < 0x1_0000_0000;
    assert (Mask(crc) - MASK_DELTA) % 0x1_0000_0000 == rotated;
    assert rotated / 0x2_0000 == crc % 0x8000 && rotated % 0x2_0000 == crc / 0x8000;
  }

  lemma MaskUnmask(masked: Word)
    ensures Mask(Unmask(masked)) == masked
  {
    var rotated := (masked - MASK_DELTA) % 0x1_0000_0000;
    var high, low := rotated / 0x2_0000, rotated % 0x2_0000;
    var crc := high + low * 0x8000;
    assert Unmask(masked) == crc;
    assert crc / 0x8000 == low && crc % 0x8000 == high;
  }

  // ---------- the format ----------

  /** A physical record. */
  datatype Fragment = Fragment(kind: Byte, payload: Bytes)

  /** Where a physical record goes that is written at file position `p`: headers are not split. */
  function Place(p: nat): (q: nat)
    ensures p <= q < p + HEADER_SIZE && q % BLOCK_SIZE <= BLOCK_SIZE - HEADER_SIZE
    ensures q > p ==> q % BLOCK_SIZE == 0
  {
    if BLOCK_SIZE - p % BLOCK_SIZE < HEADER_SIZE then p + (BLOCK_SIZE - p % BLOCK_SIZE) else p
  }

  /** Room for payload in the block of a header at `q`. */
  function Available(q: nat): (r: nat)
    requires q % BLOCK_SIZE <= BLOCK_SIZE - HEADER_SIZE
    ensures r <= BLOCK_SIZE - HEADER_SIZE
  {
    BLOCK_SIZE - q % BLOCK_SIZE - HEADER_SIZE
  }

  function Zeros(n: nat): Bytes {
    seq(n, _ => 0)
  }

  function Header(crc: Checksum, f: Fragment): (r: Bytes)
    requires |f.payload| < 0x1_0000
    ensures |r| == HEADER_SIZE
  {
    EncodeFixed32(Mask(crc([f.kind] + f.payload))) + [|f.payload| % 0x100, |f.payload| / 0x100, f.kind]
  }

  function After(p: nat, f: Fragment): nat {
    Place(p) + HEADER_SIZE + |f.payload|
  }

  function AfterAll(p: nat, fs: seq<Fragment>): (r: nat)
    ensures r >= p
    decreases |fs|
  {
    if fs == [] then p else AfterAll(After(p, fs[0]), fs[1..])
  }

  predicate Fits(p: nat, f: Fragment) {
    |f.payload| <= Available(Place(p)) && FULL <= f.kind <= LAST
  }

  predicate AllFit(p: nat, fs: seq<Fragment>)
    decreases |fs|
  {
    fs == [] || (Fits(p, fs[0]) && AllFit(After(p, fs[0]), fs[1..]))
  }

  function Image(crc: Checksum, p: nat, f: Fragment): (r: Bytes)
    requires Fits(p, f)
    ensures p + |r| == After(p, f)
  {
    Zeros(Place(p) - p) + Header(crc, f) + f.payload
  }

  /** What physical records look like on file from position `p` on. */
  function Images(crc: Checksum, p: nat, fs: seq<Fragment>): (r: Bytes)
    requires AllFit(p, fs)
    decreases |fs|
  {
    if fs == [] then [] else Image(crc, p, fs[0]) + Images(crc, After(p, fs[0]), fs[1..])
  }

  lemma {:induction false} ImagesLength(crc: Checksum, p: nat, fs: seq<Fragment>)
    requires AllFit(p, fs)
    ensures p + |Images(crc, p, fs)| == AfterAll(p, fs)
    decreases |fs|
  {
    if fs != [] {
      ImagesLength(crc, After(p, fs[0]), fs[1..]);
    }
  }

  function KindOf(begin: bool, end: bool): Byte {
    if begin && end then FULL else if begin then FIRST else if end then LAST else MIDDLE
  }

  /** The fragments of a record that is written at position `p`. */
  function Fragments(p: nat, data: Bytes, begin: bool): (r: seq<Fragment>)
    ensures AllFit(p, r) && r != []
    decreases |data|, if Available(Place(p)) == 0 then 1 else 0
  {
    var room := Available(Place(p));
    if |data| <= room then [Fragment(KindOf(begin, true), data)]
    else [Fragment(KindOf(begin, false), data[..room])] + Fragments(Place(p) + HEADER_SIZE + room, data[room..], false)
  }

  /** The position after a record. */
  function AfterRecord(p: nat, data: Bytes): nat {
    AfterAll(p, Fragments(p, data, true))
  }

  function RecordImage(crc: Checksum, p: nat, data: Bytes): (r: Bytes)
    ensures p + |r| == AfterRecord(p, data)
  {
    ImagesLength(crc, p, Fragments(p, data, true));
    Images(crc, p, Fragments(p, data, true))
  }

  /** A log file from position `p` on. */
  function LogImage(crc: Checksum, p: nat, records: seq<Bytes>): Bytes
    decreases |records|
  {
    if records == [] then []
    else RecordImage(crc, p, records[0]) + LogImage(crc, AfterRecord(p, records[0]), records[1..])
  }

  function AfterRecords(p: nat, records: seq<Bytes>): (r: nat)
    ensures r >= p
    decreases |records|
  {
    if records == [] then p else AfterRecords(AfterRecord(p, records[0]), records[1..])
  }

  lemma {:induction false} LogLength(crc: Checksum, p: nat, records: seq<Bytes>)
    ensures p + |LogImage(crc, p, records)| == AfterRecords(p, records)
    decreases |records|
  {
    if records != [] {
      LogLength(crc, AfterRecord(p, records[0]), records[1..]);
    }
  }

  lemma {:induction false} LogAppend(crc: Checksum, p: nat, records: seq<Bytes>, data: Bytes)
    ensures LogImage(crc, p, records + [data]) ==
            LogImage(crc, p, records) + RecordImage(crc, AfterRecords(p, records), data)
    decreases |records|
  {
    hide RecordImage, AfterRecord;
    if records == [] {
      assert records + [data] == [data];
      assert LogImage(crc, AfterRecord(p, data), []) == [];
    } else {
      LogAppend(crc, AfterRecord(p, records[0]), records[1..], data);
      assert (records + [data])[1..] == records[1..] + [data];
    }
  }

  // ---------- the writer ----------

  class Writer {
    const crc: Checksum
    var dest: Bytes
    var blockOffset: nat

    /** The writer counts to the end of a block before it wraps around. */
    ghost predicate Valid()
      reads this
    {
      blockOffset <= BLOCK_SIZE && blockOffset % BLOCK_SIZE == |dest| % BLOCK_SIZE
    }

    constructor (crc: Checksum)
      ensures Valid() && dest == [] && this.crc == crc
    {
      this.crc := crc;
      dest := [];
      blockOffset := 0;
    }

    method AddRecord(data: Bytes)
      requires Valid()
      modifies this
      ensures Valid() && dest == old(dest) + RecordImage(crc, |old(dest)|, data)
    {
      hide Fragments, Images, Image, RecordImage, Place, Available, Header;
      var ptr, left, begin := 0, |data|, true;
      var more := true;
      assert data[0..] == data;
      RecordStart(crc, dest, data);
      while more
        invariant Valid() && ptr + left == |data| && 0 <= ptr <= |data|
        invariant if more then Expected(crc, dest, data[ptr..], begin) == old(dest) + RecordImage(crc, |old(dest)|, data)
                  else dest == old(dest) + RecordImage(crc, |old(dest)|, data)
        decreases more, left, if Available(Place(|dest|)) == 0 then 1 else 0
      {
        ghost var before := dest;
        ghost var rest := data[ptr..];
        var available := StartFragment();
        var length := if left < available then left else available;
        var end := left == length;
        var f := Fragment(KindOf(begin, end), data[ptr..ptr + length]);
        FragmentStep(crc, before, rest, begin, f, length);
        EmitPhysicalRecord(f);
        assert rest[length..] == data[ptr + length..];
        ptr := ptr + length;
        left := left - length;
        begin := false;
        more := left > 0;
      }
    }

    /** Moves on to the next block if a header does not fit into this one. */
    method StartFragment() returns (available: nat)
      requires Valid()
      modifies this
      ensures Valid() && dest == old(dest) + Zeros(Place(|old(dest)|) - |old(dest)|)
      ensures blockOffset + HEADER_SIZE + available == BLOCK_SIZE && available == Available(Place(|old(dest)|))
    {
      var leftover := BLOCK_SIZE - blockOffset;
      if leftover < HEADER_SIZE {
        if leftover > 0 {
          dest := dest + Zeros(leftover);
        }
        blockOffset := 0;
      }
      available := BLOCK_SIZE - blockOffset - HEADER_SIZE;
    }

    method EmitPhysicalRecord(f: Fragment)
      requires Valid() && blockOffset + HEADER_SIZE + |f.payload| <= BLOCK_SIZE
      modifies this
      ensures Valid() && dest == old(dest) + Header(crc, f) + f.payload
    {
      hide Mask;
      var header := EncodeFixed32(Mask(crc([f.kind] + f.payload))) + [|f.payload| % 0x100, |f.payload| / 0x100, f.kind];
      SameRemainder(blockOffset, |dest|, HEADER_SIZE + |f.payload|);
      dest := dest + header;
      dest := dest + f.payload;
      blockOffset := blockOffset + HEADER_SIZE + |f.payload|;
    }
  }

  lemma SameRemainder(a: nat, b: nat, n: nat)
    requires a % BLOCK_SIZE == b % BLOCK_SIZE
    ensures (a + n) % BLOCK_SIZE == (b + n) % BLOCK_SIZE
  {
  }

  /** The file once the rest of a record has been written. */
  ghost function Expected(crc: Checksum, dest: Bytes, rest: Bytes, begin: bool): Bytes {
    dest + Images(crc, |dest|, Fragments(|dest|, rest, begin))
  }

  lemma RecordStart(crc: Checksum, dest: Bytes, data: Bytes)
    ensures Expected(crc, dest, data, true) == dest + RecordImage(crc, |dest|, data)
  {
  }

  /** One fragment: `f` is the first fragment of what is left of the record. */
  lemma FragmentStep(crc: Checksum, dest: Bytes, rest: Bytes, begin: bool, f: Fragment, length: nat)
    requires length == (if |rest| < Available(Place(|dest|)) then |rest| else Available(Place(|dest|)))
    requires f == Fragment(KindOf(begin, |rest| == length), rest[..length])
    ensures var after := dest + Zeros(Place(|dest|) - |dest|) + Header(crc, f) + f.payload;
      && |after| == After(|dest|, f)
      && Expected(crc, dest, rest, begin) ==
         (if |rest| == length then after else Expected(crc, after, rest[length..], false))
    ensures |rest| > length && length == 0 ==> Available(Place(|dest|)) == 0 && Available(Place(After(|dest|, f))) > 0
  {
    hide Header, Images;
    var p := |dest|;
    var fs := Fragments(p, rest, begin);
    assert rest[..|rest|] == rest;
    assert fs[0] == f;
    FirstImage(crc, dest, fs);
    if |rest| == length {
      assert fs[1..] == [];
      NoImages(crc, After(p, f));
    } else {
      assert fs[1..] == Fragments(After(p, f), rest[length..], false);
    }
  }

  lemma FirstImage(crc: Checksum, dest: Bytes, fs: seq<Fragment>)
    requires fs != [] && AllFit(|dest|, fs)
    ensures var after := dest + Zeros(Place(|dest|) - |dest|) + Header(crc, fs[0]) + fs[0].payload;
      && |after| == After(|dest|, fs[0])
      && dest + Images(crc, |dest|, fs) == after + Images(crc, |after|, fs[1..])
  {
    hide Header, Place, Available;
    var f := fs[0];
    assert Images(crc, |dest|, fs) == Image(crc, |dest|, f) + Images(crc, After(|dest|, f), fs[1..]);
    hide Images, AllFit;
  }

  lemma NoImages(crc: Checksum, p: nat)
    ensures Images(crc, p, []) == []
  {
  }

  // ---------- the reader ----------

  /** The records not yet read, as physical records. */
  function Physical(p: nat, todo: seq<Bytes>): (r: seq<Fragment>)
    ensures AllFit(p, r)
    decreases |todo|
  {
    if todo == [] then []
    else
      AllFitConcat(p, Fragments(p, todo[0], true), Physical(AfterRecord(p, todo[0]), todo[1..]));
      Fragments(p, todo[0], true) + Physical(AfterRecord(p, todo[0]), todo[1..])
  }

  lemma {:induction false} AllFitConcat(p: nat, a: seq<Fragment>, b: seq<Fragment>)
    requires AllFit(p, a) && AllFit(AfterAll(p, a), b)
    ensures AllFit(p, a + b)
    decreases |a|
  {
    hide Fits, After;
    if a == [] {
      assert a + b == b;
    } else {
      AllFitConcat(After(p, a[0]), a[1..], b);
      assert (a + b)[1..] == a[1..] + b;
    }
  }

  lemma {:induction false} ImagesConcat(crc: Checksum, p: nat, a: seq<Fragment>, b: seq<Fragment>)
    requires AllFit(p, a) && AllFit(AfterAll(p, a), b) && AllFit(p, a + b)
    ensures Images(crc, p, a + b) == Images(crc, p, a) + Images(crc, AfterAll(p, a), b)
    decreases |a|
  {
    hide Image, Fits, After;
    if a == [] {
      assert a + b == b;
    } else {
      assert (a + b)[1..] == a[1..] + b;
      ImagesConcat(crc, After(p, a[0]), a[1..], b);
    }
  }

  lemma {:induction false} LogIsPhysical(crc: Checksum, p: nat, todo: seq<Bytes>)
    ensures LogImage(crc, p, todo) == Images(crc, p, Physical(p, todo))
    decreases |todo|
  {
    hide Fragments, Place, Image, AllFit, Images;
    if todo == [] {
      NoImages(crc, p);
    } else {
      var fs := Fragments(p, todo[0], true);
      LogIsPhysical(crc, AfterRecord(p, todo[0]), todo[1..]);
      assert Physical(p, todo) == fs + Physical(AfterRecord(p, todo[0]), todo[1..]);
      ImagesConcat(crc, p, fs, Physical(AfterRecord(p, todo[0]), todo[1..]));
    }
  }

  /** What `ReadPhysicalRecord` returns: a type and a payload, the end of the file, or a bad record. */
  datatype Physically = Record(kind: Byte, payload: Bytes) | Eof | BadRecord

  /** From position `p` on, `file` is a beginning of what the physical records `fs` look like. */
  ghost predicate Begins(crc: Checksum, file: Bytes, p: nat, fs: seq<Fragment>) {
    p <= |file| && AllFit(p, fs) && file[p..] <= Images(crc, p, fs)
  }

  /** Skipping the zeros at the end of a block. */
  lemma SkipTrailer(crc: Checksum, file: Bytes, p: nat, fs: seq<Fragment>, q: nat)
    requires Begins(crc, file, p, fs) && p <= q <= |file| && q < p + HEADER_SIZE && q % BLOCK_SIZE == 0
    ensures Begins(crc, file, q, fs)
    ensures fs != [] ==> Place(q) == Place(p)
  {
    PlaceAtBoundary(p, q);
    AfterTrailer(crc, file, p, fs, q);
  }

  lemma AfterTrailer(crc: Checksum, file: Bytes, p: nat, fs: seq<Fragment>, q: nat)
    requires Begins(crc, file, p, fs) && p <= q <= |file| && Place(p) == Place(q) == q
    ensures Begins(crc, file, q, fs)
  {
    hide Place, Header, Available;
    if fs != [] {
      var z := Zeros(q - p);
      assert Image(crc, p, fs[0]) == z + Image(crc, q, fs[0]);
      assert Images(crc, p, fs) == z + Images(crc, q, fs);
      hide Image, Images, AllFit;
      assert file[q..] == file[p..][q - p..];
    } else {
      NoImages(crc, p);
      assert q == p;
    }
  }

  lemma PlaceAtBoundary(p: nat, q: nat)
    requires p <= q < p + HEADER_SIZE && q % BLOCK_SIZE == 0
    ensures Place(p) == q && Place(q) == q
  {
    if p < q {
      assert p / BLOCK_SIZE == q / BLOCK_SIZE - 1;
    }
  }

  /** A header that is wholly in the buffer. */
  lemma HeaderAt(crc: Checksum, file: Bytes, p: nat, fs: seq<Fragment>, buffer: Bytes)
    requires Begins(crc, file, p, fs) && Place(p) == p
    requires HEADER_SIZE <= |buffer| && buffer <= file[p..]
    ensures fs != [] && Fits(p, fs[0]) && buffer[..HEADER_SIZE] == Header(crc, fs[0])
    ensures |buffer| >= HEADER_SIZE + |fs[0].payload| ==>
      && buffer[HEADER_SIZE..HEADER_SIZE + |fs[0].payload|] == fs[0].payload
      && Begins(crc, file, p + HEADER_SIZE + |fs[0].payload|, fs[1..])
  {
    hide Header;
    if fs == [] {
      NoImages(crc, p);
    }
    var f := fs[0];
    var rest := Images(crc, After(p, f), fs[1..]);
    assert Images(crc, p, fs) == Header(crc, f) + f.payload + rest;
    var n := HEADER_SIZE + |f.payload|;
    if |buffer| >= n {
      assert buffer[..n] == (Header(crc, f) + f.payload + rest)[..n];
      assert file[p + n..] == file[p..][n..];
      assert (Header(crc, f) + f.payload + rest)[n..] == rest;
    }
  }

  function PayloadLength(h: Bytes): nat
    requires |h| >= HEADER_SIZE
  {
    var a: int, b: int := h[4], h[5];
    a + b * 0x100
  }

  lemma HeaderFields(crc: Checksum, f: Fragment, h: Bytes)
    requires |f.payload| < 0x1_0000 && HEADER_SIZE <= |h| && h[..HEADER_SIZE] == Header(crc, f)
    ensures PayloadLength(h) == |f.payload| && h[6] == f.kind
    ensures Unmask(DecodeFixed32(h)) == crc([f.kind] + f.payload)
  {
    hide Mask, Unmask, DecodeFixed32;
    var masked := Mask(crc([f.kind] + f.payload));
    UnmaskMask(crc([f.kind] + f.payload));
    Fixed32RoundTrip(masked, h[4..]);
    assert h == EncodeFixed32(masked) + h[4..] by {
      assert h[..4] == h[..HEADER_SIZE][..4] == EncodeFixed32(masked);
    }
    assert h[4] == h[..HEADER_SIZE][4] && h[5] == h[..HEADER_SIZE][5] && h[6] == h[..HEADER_SIZE][6];
  }

  class Reader {
    const crc: Checksum
    const file: Bytes
    var filePos: nat
    var buffer: Bytes
    var eof: bool
    /** Number of corruptions reported. */
    var drops: nat

    /** The buffer holds what is left of the last block read. */
    ghost predicate Valid()
      reads this`filePos, this`buffer, this`eof
    {
      && |buffer| <= filePos <= |file|
      && buffer == file[filePos - |buffer|..filePos]
      && (if eof then filePos == |file| else filePos % BLOCK_SIZE == 0)
      && InOneBlock(filePos - |buffer|, filePos)
    }

    ghost function Pos(): (p: nat)
      reads this`filePos, this`buffer, this`eof
      requires Valid()
      ensures p <= |file|
    {
      filePos - |buffer|
    }

    constructor (crc: Checksum, file: Bytes)
      ensures Valid() && Pos() == 0 && drops == 0 && this.crc == crc && this.file == file
    {
      this.crc := crc;
      hide InOneBlock;
      this.file := file;
      filePos, buffer, eof, drops := 0, [], false, 0;
      NoBytes(0);
      new;
      assert file[0..0] == [];
    }

    /** Reads the next block, or what there is of it.  What is left of this one is a trailer. */
    method ReadBlock(ghost fs: seq<Fragment>)
      requires Valid() && !eof && |buffer| < HEADER_SIZE
      modifies this
      ensures Valid() && Pos() >= old(Pos()) && drops == old(drops)
      ensures eof || |buffer| == BLOCK_SIZE
      ensures Place(Pos()) == Place(old(Pos()))
      ensures old(Begins(crc, file, Pos(), fs)) ==>
        Begins(crc, file, Pos(), fs) && (fs != [] ==> Place(Pos()) == Place(old(Pos())))
    {
      hide Begins, Place, InOneBlock;
      if Begins(crc, file, Pos(), fs) {
        SkipTrailer(crc, file, Pos(), fs, filePos);
      }
      PlaceAtBoundary(Pos(), filePos);
      var n := if |file| - filePos < BLOCK_SIZE then |file| - filePos else BLOCK_SIZE;
      NewBlock(filePos, n);
      buffer := file[filePos..filePos + n];
      filePos := filePos + n;
      if |buffer| < BLOCK_SIZE {
        eof := true;
      }
    }

    /** Reads on until the buffer holds a header.  A header that is cut off is the end of the file. */
    method FillBuffer(ghost fs: seq<Fragment>) returns (header: bool)
      requires Valid()
      modifies this
      ensures Valid() && drops == old(drops) && Pos() >= old(Pos())
      ensures header ==> HEADER_SIZE <= |buffer| && Pos() == Place(old(Pos()))
      ensures old(Begins(crc, file, Pos(), fs)) && header ==>
        Begins(crc, file, Pos(), fs) && (fs != [] ==> Place(Pos()) == Place(old(Pos())))
      ensures old(Begins(crc, file, Pos(), fs)) && !header && fs != [] ==> After(old(Pos()), fs[0]) > |file|
      ensures !header ==> CutOff(file, Place(old(Pos())))
    {
      hide Begins, Place, InOneBlock;
      ghost var good := Begins(crc, file, Pos(), fs);
      while |buffer| < HEADER_SIZE
        invariant Valid() && drops == old(drops) && Pos() >= old(Pos())
        invariant good ==> Begins(crc, file, Pos(), fs) && (fs != [] ==> Place(Pos()) == Place(old(Pos())))
        invariant Place(Pos()) == Place(old(Pos()))
        decreases if eof then 0 else 1, if |buffer| < HEADER_SIZE then 1 else 0
      {
        if !eof {
          ReadBlock(fs);
        } else {
          CutHeader(Pos(), filePos);
          NoBytes(filePos);
          buffer := [];
          return false;
        }
      }
      WholeHeader(Pos(), filePos);
      header := true;
    }

    /** Returns the next physical record.  A record that is cut off by the end of the file is no error; a
        length that does not fit into the block or a checksum that does not match is one, and the rest of
        the block is dropped. */
    method ReadPhysicalRecord(ghost fs: seq<Fragment>) returns (r: Physically)
      requires Valid()
      modifies this
      ensures Valid() && (r != Eof ==> Pos() > old(Pos()))
      ensures r.Record? ==> Authentic(crc, file, Pos(), r) && Pos() == After(old(Pos()), Fragment(r.kind, r.payload))
      ensures !r.BadRecord? ==> drops == old(drops)
      ensures r == BadRecord ==> drops == old(drops) + if Zeroed(file, Place(old(Pos()))) then 0 else 1
      ensures r == BadRecord ==> InOneBlock(Place(old(Pos())), Pos())
      ensures r == Eof ==> CutOff(file, Place(old(Pos())))
      ensures old(Begins(crc, file, Pos(), fs)) ==> Delivers(crc, file, old(Pos()), fs, Pos(), r)
    {
      hide Begins, Place, Authentic, InOneBlock, CutOff, Zeroed, PayloadLength, After, Delivers;
      ghost var p := Pos();
      var header := FillBuffer(fs);
      if !header {
        MissingHeader(crc, file, p, fs, Pos());
        return Eof;
      }
      ghost var q := Pos();
      r := ParseRecord(fs);
      SamePlace(crc, file, p, q, fs, Pos(), r);
    }

    /** The buffer begins with a header. */
    method ParseRecord(ghost fs: seq<Fragment>) returns (r: Physically)
      requires Valid() && HEADER_SIZE <= |buffer|
      modifies this
      ensures Valid() && (r != Eof ==> Pos() > old(Pos()))
      ensures r.Record? ==> Authentic(crc, file, Pos(), r) && Pos() == After(old(Pos()), Fragment(r.kind, r.payload))
      ensures !r.BadRecord? ==> drops == old(drops)
      ensures r == BadRecord ==> drops == old(drops) + if Zeroed(file, Place(old(Pos()))) then 0 else 1
      ensures r == BadRecord ==> InOneBlock(Place(old(Pos())), Pos())
      ensures r == Eof ==> CutOff(file, Place(old(Pos())))
      ensures old(Begins(crc, file, Pos(), fs)) ==> Delivers(crc, file, old(Pos()), fs, Pos(), r)
    {
      hide Begins, Place, DecodeFixed32, Unmask, PayloadLength, InOneBlock, Delivers, Authentic, CutOff, Zeroed;
      WholeHeader(Pos(), filePos);
      var kind: Byte, length := buffer[6], PayloadLength(buffer);
      if Begins(crc, file, Pos(), fs) {
        GoodHeader(crc, file, Pos(), filePos, eof, fs, buffer);
      }
      NoBytes(filePos);
      HeaderInFile(file, Pos(), filePos, buffer);
      if HEADER_SIZE + length > |buffer| {
        buffer := [];
        if !eof {
          drops := drops + 1;
          return BadRecord;
        }
        return Eof;
      }
      if kind == 0 && length == 0 {
        buffer := [];
        return BadRecord;
      }
      if Unmask(DecodeFixed32(buffer)) != crc(buffer[6..HEADER_SIZE + length]) {
        buffer := [];
        drops := drops + 1;
        return BadRecord;
      }
      r := TakeRecord(kind, length);
    }

    /** The record at the front of the buffer, whose checksum is right. */
    method TakeRecord(kind: Byte, length: nat) returns (r: Physically)
      requires Valid() && HEADER_SIZE + length <= |buffer| && kind == buffer[6]
      requires length == PayloadLength(buffer)
      requires Unmask(DecodeFixed32(buffer)) == crc(buffer[6..HEADER_SIZE + length])
      modifies this`buffer
      ensures Valid() && Pos() == old(Pos()) + HEADER_SIZE + length
      ensures r == Record(kind, old(buffer)[HEADER_SIZE..HEADER_SIZE + length]) && Authentic(crc, file, Pos(), r)
    {
      hide DecodeFixed32, Unmask, PayloadLength, InOneBlock, Authentic;
      BufferSplit(buffer, length, kind);
      r := Record(kind, buffer[HEADER_SIZE..HEADER_SIZE + length]);
      LaterInBlock(Pos(), HEADER_SIZE + length, filePos);
      ReturnedIsAuthentic(crc, file, Pos(), filePos, buffer, r);
      buffer := buffer[HEADER_SIZE + length..];
    }

    /** Returns the next record, put together from its fragments: in any file whatever only what stands there as a
        record, reporting whatever else it has to skip, and in the beginning of a log the next record of the log. */
    method ReadRecord(ghost todo: seq<Bytes>) returns (ok: bool, record: Bytes)
      requires Valid()
      modifies this
      ensures Valid() && (ok ==> Pos() > old(Pos())) && drops >= old(drops)
      ensures ok ==> Stands(crc, file, old(Pos()), Pos(), record, drops == old(drops))
      ensures !ok && drops == old(drops) ==> Ends(crc, file, old(Pos()))
      ensures old(ReadsOn(crc, file, Pos(), todo)) ==>
        drops == old(drops) && IsNext(crc, file, old(Pos()), todo, Pos(), ok, record)
    {
      hide Begins, Place, Available, AllFit, Fragments, Physical, Images, Authentic, InOneBlock, ReadsOn, Within, Delivers,
           After, AfterAll, AfterRecord, RestOf, Reading, Stands, Ends, IsNext, CutOff, Zeroed, PayloadLength;
      hide Reader.Valid, Reader.Pos;
      ghost var from, run: seq<Fragment> := 0, [];
      ghost var good := ReadsOn(crc, file, Pos(), todo);
      ghost var start := Pos();
      var scratch: Bytes, fragmented := [], false;
      RecordBegins(crc, file, start, todo);
      NothingYet(crc, file, start);
      while true
        invariant Valid() && start <= Pos()
        invariant drops >= old(drops)
        invariant Reading(crc, file, start, Pos(), from, run, scratch, fragmented, drops == old(drops))
        invariant good ==> drops == old(drops) && Within(crc, file, start, todo, Pos(), scratch, fragmented)
        decreases |file| - Pos()
      {
        ghost var fs := RestOf(Pos(), todo, scratch, fragmented);
        ghost var p, silent := Pos(), drops == old(drops);
        if good {
          WithinBegins(crc, file, start, todo, p, scratch, fragmented);
        }
        var r := ReadPhysicalRecord(fs);
        if good {
          NextFragment(crc, file, start, todo, p, scratch, fragmented, Pos(), r);
        }
        if r == Eof || (r.Record? && r.kind == EOF_TYPE) {
          EndsHere(crc, file, start, p, Pos(), from, run, scratch, fragmented, silent, r);
          return false, [];
        } else if r == BadRecord || r.kind == BAD_RECORD_TYPE {
          ghost var more := drops == old(drops) && !fragmented;
          if fragmented {
            drops := drops + 1;
            fragmented := false;
            scratch := [];
          }
          BadPasses(crc, file, start, p, Pos(), from, run, scratch, silent, r, more);
        } else if r.kind == FULL {
          ghost var more := drops == old(drops) && (fragmented ==> scratch == []);
          if fragmented && scratch != [] {
            drops := drops + 1;
          }
          FullStands(crc, file, start, p, Pos(), from, run, scratch, fragmented, silent, r, more);
          return true, r.payload;
        } else if r.kind == FIRST {
          ghost var more := drops == old(drops) && (fragmented ==> scratch == []);
          if fragmented && scratch != [] {
            drops := drops + 1;
          }
          FirstBegins(crc, file, start, p, Pos(), from, run, scratch, fragmented, silent, r, more);
          from, run := p, [Fragment(r.kind, r.payload)];
          scratch := r.payload;
          fragmented := true;
        } else if r.kind == MIDDLE {
          if fragmented {
            MiddleGrows(crc, file, start, p, Pos(), from, run, scratch, silent, r);
            run := run + [Fragment(r.kind, r.payload)];
            scratch := scratch + r.payload;
          } else {
            drops := drops + 1;
            Reported(crc, file, start, Pos(), from, run, scratch);
          }
        } else if r.kind == LAST {
          if fragmented {
            LastEnds(crc, file, start, p, Pos(), from, run, scratch, silent, r);
            return true, scratch + r.payload;
          } else {
            drops := drops + 1;
            Reported(crc, file, start, Pos(), from, run, scratch);
          }
        } else {
          drops := drops + 1;
          fragmented := false;
          scratch := [];
          Reported(crc, file, start, Pos(), from, run, scratch);
        }
      }
    }
  }

  /** The special results of `ReadPhysicalRecord` are numbered like record types, so a record of that type is
      taken for them. */
  const EOF_TYPE: Byte := 5
  const BAD_RECORD_TYPE: Byte := 6

  /** From position `p` on, the file is a beginning of the log of `todo`. */
  ghost predicate ReadsOn(crc: Checksum, file: Bytes, p: nat, todo: seq<Bytes>) {
    Begins(crc, file, p, Physical(p, todo))
  }

  /** The next record exactly if it is whole. */
  ghost predicate IsNext(crc: Checksum, file: Bytes, p: nat, todo: seq<Bytes>, q: nat, ok: bool, record: Bytes) {
    && ok == (todo != [] && AfterRecord(p, todo[0]) <= |file|)
    && (ok ==> record == todo[0] && q == AfterRecord(p, todo[0]) && ReadsOn(crc, file, q, todo[1..]))
  }

  /** The physical records still to come when `scratch` has been read of the first record. */
  function RestOf(p: nat, todo: seq<Bytes>, scratch: Bytes, fragmented: bool): seq<Fragment> {
    if todo == [] || |scratch| > |todo[0]| then []
    else
      var fs := Fragments(p, todo[0][|scratch|..], !fragmented);
      fs + Physical(AfterAll(p, fs), todo[1..])
  }

  /** In the middle of the first record of `todo`, which began at `start`. */
  ghost predicate Within(crc: Checksum, file: Bytes, start: nat, todo: seq<Bytes>, p: nat, scratch: Bytes,
                         fragmented: bool)
  {
    && Begins(crc, file, p, RestOf(p, todo, scratch, fragmented))
    && (!fragmented ==> scratch == [])
    && (todo != [] ==>
          && |scratch| <= |todo[0]| && scratch == todo[0][..|scratch|]
          && AfterAll(p, Fragments(p, todo[0][|scratch|..], !fragmented)) == AfterRecord(start, todo[0]))
  }

  lemma RecordBegins(crc: Checksum, file: Bytes, p: nat, todo: seq<Bytes>)
    ensures ReadsOn(crc, file, p, todo) ==> Within(crc, file, p, todo, p, [], false)
  {
    hide Begins, Fragments;
    if todo != [] {
      assert todo[0][0..] == todo[0];
    }
  }

  lemma WithinBegins(crc: Checksum, file: Bytes, start: nat, todo: seq<Bytes>, p: nat, scratch: Bytes, fragmented: bool)
    requires Within(crc, file, start, todo, p, scratch, fragmented)
    ensures Begins(crc, file, p, RestOf(p, todo, scratch, fragmented))
  {
  }

  lemma FragmentHead(p: nat, rest: Bytes, begin: bool)
    ensures var fs := Fragments(p, rest, begin);
      var f := fs[0];
      && |f.payload| <= |rest| && f.payload == rest[..|f.payload|]
      && f.kind == KindOf(begin, |f.payload| == |rest|)
      && fs[1..] == (if |f.payload| == |rest| then [] else Fragments(After(p, f), rest[|f.payload|..], false))
      && AfterAll(p, fs) == (if |f.payload| == |rest| then After(p, f) else AfterAll(After(p, f), fs[1..]))
      && After(p, f) <= AfterAll(p, fs)
  {
    hide Place, Available;
    var fs := Fragments(p, rest, begin);
    assert AfterAll(p, fs) == AfterAll(After(p, fs[0]), fs[1..]);
    assert rest[..|rest|] == rest;
  }

  /** What reading one more physical record means for the record being read. */
  lemma NextFragment(crc: Checksum, file: Bytes, start: nat, todo: seq<Bytes>, p: nat, scratch: Bytes,
                     fragmented: bool, p': nat, r: Physically)
    requires Within(crc, file, start, todo, p, scratch, fragmented)
    requires Delivers(crc, file, p, RestOf(p, todo, scratch, fragmented), p', r)
    ensures r == Eof ==> IsNext(crc, file, start, todo, p', false, [])
    ensures !fragmented ==> scratch == [] && scratch + (if r.Record? then r.payload else []) == if r.Record? then r.payload else []
    ensures r != Eof ==>
      && r.Record? && FULL <= r.kind <= LAST
      && ((r.kind == FULL || r.kind == FIRST) <==> !fragmented)
      && (if r.kind == FULL || r.kind == LAST
          then IsNext(crc, file, start, todo, p', true, scratch + r.payload)
          else Within(crc, file, start, todo, p', scratch + r.payload, true))
  {
    hide Begins, Fragments, Physical, After, AfterRecord, Available, Delivers;
    if todo != [] {
      var rest := todo[0][|scratch|..];
      FragmentHead(p, rest, !fragmented);
      Arrives(crc, file, p, todo, scratch, fragmented, p', r);
      var f := Fragments(p, rest, !fragmented)[0];
      var n := |f.payload|;
      assert scratch + f.payload == todo[0][..|scratch| + n];
      assert rest[n..] == todo[0][|scratch| + n..];
      assert todo[0][..|todo[0]|] == todo[0];
    } else {
      NoneArrives(crc, file, p, p', r);
    }
  }

  lemma NoneArrives(crc: Checksum, file: Bytes, p: nat, p': nat, r: Physically)
    requires Delivers(crc, file, p, [], p', r)
    ensures r == Eof
  {
  }

  /** The first fragment of what is left of a record. */
  lemma Arrives(crc: Checksum, file: Bytes, p: nat, todo: seq<Bytes>, scratch: Bytes, fragmented: bool, p': nat,
                r: Physically)
    requires todo != [] && |scratch| <= |todo[0]|
    requires Delivers(crc, file, p, RestOf(p, todo, scratch, fragmented), p', r)
    ensures
      var fs := Fragments(p, todo[0][|scratch|..], !fragmented);
      var later := Physical(AfterAll(p, fs), todo[1..]);
      if r == Eof then After(p, fs[0]) > |file|
      else && r == Record(fs[0].kind, fs[0].payload) && p' == After(p, fs[0]) <= |file|
           && Begins(crc, file, p', fs[1..] + later) && (fs[1..] == [] ==> Begins(crc, file, p', later))
  {
    hide Begins, Fragments, Physical, After, AfterAll;
    var fs := Fragments(p, todo[0][|scratch|..], !fragmented);
    var later := Physical(AfterAll(p, fs), todo[1..]);
    assert (fs + later)[0] == fs[0] && (fs + later)[1..] == fs[1..] + later;
    assert [] + later == later;
  }

  /** The next physical record if all of it is in the file, and otherwise the end of the file. */
  ghost predicate Delivers(crc: Checksum, file: Bytes, p: nat, fs: seq<Fragment>, q: nat, r: Physically) {
    if fs != [] && After(p, fs[0]) <= |file|
    then r == Record(fs[0].kind, fs[0].payload) && q == After(p, fs[0]) && Begins(crc, file, q, fs[1..])
    else r == Eof
  }

  /** The record ends at position `q` of the file, behind a header with its checksum. */
  ghost predicate Authentic(crc: Checksum, file: Bytes, q: nat, r: Physically)
    requires r.Record?
  {
    && HEADER_SIZE + |r.payload| <= q <= |file|
    && var h := file[q - HEADER_SIZE - |r.payload|..q];
       && h[HEADER_SIZE..] == r.payload && h[6] == r.kind && PayloadLength(h) == |r.payload|
       && Unmask(DecodeFixed32(h)) == crc([r.kind] + r.payload)
  }

  // ---------- records in any file ----------

  /** Not even the header, or less than the length in the header, is left of the file. */
  predicate CutOff(file: Bytes, q: nat) {
    |file| < q + HEADER_SIZE || |file| < q + HEADER_SIZE + PayloadLength(file[q..q + HEADER_SIZE])
  }

  /** A header of type and length zero: space reserved in advance. */
  predicate Zeroed(file: Bytes, q: nat) {
    q + HEADER_SIZE <= |file| && file[q + 6] == 0 && PayloadLength(file[q..q + HEADER_SIZE]) == 0
  }

  lemma HeaderInFile(file: Bytes, p: nat, q: nat, buffer: Bytes)
    requires p <= q <= |file| && buffer == file[p..q] && HEADER_SIZE <= |buffer|
    ensures Zeroed(file, p) <==> buffer[6] == 0 && PayloadLength(buffer) == 0
    ensures q == |file| && HEADER_SIZE + PayloadLength(buffer) > |buffer| ==> CutOff(file, p)
  {
  }

  /** Physical records with their checksums, one after the other from position `p` on. */
  ghost predicate Run(crc: Checksum, file: Bytes, p: nat, fs: seq<Fragment>)
    decreases |fs|
  {
    fs == [] || (Authentic(crc, file, After(p, fs[0]), Record(fs[0].kind, fs[0].payload))
                 && Run(crc, file, After(p, fs[0]), fs[1..]))
  }

  function Payloads(fs: seq<Fragment>): Bytes {
    if fs == [] then [] else Payloads(fs[..|fs| - 1]) + fs[|fs| - 1].payload
  }

  predicate Opened(fs: seq<Fragment>) {
    fs != [] && fs[0].kind == FIRST && forall i :: 0 < i < |fs| ==> fs[i].kind == MIDDLE
  }

  predicate Complete(fs: seq<Fragment>) {
    fs != [] && if |fs| == 1 then fs[0].kind == FULL else Opened(fs[..|fs| - 1]) && fs[|fs| - 1].kind == LAST
  }

  /** What the reader passes over without a report: the rest of a block after a header of zeros, a physical record without
      payload, and one of the type that stands for a bad record. */
  ghost predicate QuietStep(crc: Checksum, file: Bytes, p: nat, q: nat) {
    || (Zeroed(file, Place(p)) && InOneBlock(Place(p), q))
    || (exists kind, payload ::
          && Authentic(crc, file, q, Record(kind, payload)) && q == After(p, Fragment(kind, payload))
          && (payload == [] || kind == BAD_RECORD_TYPE))
  }

  ghost predicate QuietPath(crc: Checksum, file: Bytes, path: seq<nat>) {
    forall i :: 0 < i < |path| ==> QuietStep(crc, file, path[i - 1], path[i])
  }

  ghost predicate Quiet(crc: Checksum, file: Bytes, p: nat, q: nat) {
    exists path :: QuietPath(crc, file, path) && path != [] && path[0] == p && path[|path| - 1] == q
  }

  /** The file has the record at or after `start`, ending at `q`: whole, its fragments in order and nothing between.  If the
      reader has been silent, nothing that is worth a report is before it. */
  ghost predicate Stands(crc: Checksum, file: Bytes, start: nat, q: nat, record: Bytes, silent: bool) {
    exists p, fs ::
      && start <= p && Run(crc, file, p, fs) && Complete(fs) && AfterAll(p, fs) == q && Payloads(fs) == record
      && (silent ==> Quiet(crc, file, start, p))
  }

  /** The beginning of a record, up to `q`. */
  ghost predicate Part(crc: Checksum, file: Bytes, start: nat, p: nat, fs: seq<Fragment>, q: nat, scratch: Bytes,
                       silent: bool)
  {
    && start <= p && Run(crc, file, p, fs) && Opened(fs) && AfterAll(p, fs) == q && Payloads(fs) == scratch
    && (silent ==> Quiet(crc, file, start, p))
  }

  /** From `start` on there is nothing worth a report but the beginning of a record, and then the file is cut off, or a
      physical record has the type that stands for its end. */
  ghost predicate Ends(crc: Checksum, file: Bytes, start: nat) {
    exists p, fs ::
      && Quiet(crc, file, start, p) && Run(crc, file, p, fs) && (fs == [] || Opened(fs))
      && var q := AfterAll(p, fs);
         CutOff(file, Place(q)) || exists payload ::
           Authentic(crc, file, After(q, Fragment(EOF_TYPE, payload)), Record(EOF_TYPE, payload))
  }

  lemma QuietSelf(crc: Checksum, file: Bytes, p: nat)
    ensures Quiet(crc, file, p, p)
  {
    assert QuietPath(crc, file, [p]);
  }

  lemma QuietNext(crc: Checksum, file: Bytes, p: nat, q: nat, q': nat)
    requires Quiet(crc, file, p, q) && QuietStep(crc, file, q, q')
    ensures Quiet(crc, file, p, q')
  {
    hide QuietStep;
    var path :| QuietPath(crc, file, path) && path != [] && path[0] == p && path[|path| - 1] == q;
    assert QuietPath(crc, file, path + [q']);
  }

  lemma QuietEmpty(crc: Checksum, file: Bytes, p: nat, f: Fragment)
    requires Authentic(crc, file, After(p, f), Record(f.kind, f.payload)) && f.payload == []
    ensures QuietStep(crc, file, p, After(p, f))
  {
    hide Authentic, After, Zeroed;
  }

  lemma {:induction false} NoPayload(fs: seq<Fragment>, i: nat)
    requires Payloads(fs) == [] && i < |fs|
    ensures fs[i].payload == []
  {
    if i < |fs| - 1 {
      NoPayload(fs[..|fs| - 1], i);
    }
  }

  lemma {:induction false} EmptyRun(crc: Checksum, file: Bytes, start: nat, p: nat, fs: seq<Fragment>)
    requires Quiet(crc, file, start, p) && Run(crc, file, p, fs)
    requires forall i :: 0 <= i < |fs| ==> fs[i].payload == []
    ensures Quiet(crc, file, start, AfterAll(p, fs))
    decreases |fs|
  {
    hide Quiet, QuietStep, Authentic, After;
    if fs != [] {
      QuietEmpty(crc, file, p, fs[0]);
      QuietNext(crc, file, start, p, After(p, fs[0]));
      EmptyRun(crc, file, start, After(p, fs[0]), fs[1..]);
    }
  }

  /** In the middle of reading: the beginning of a record, or nothing. */
  ghost predicate Reading(crc: Checksum, file: Bytes, start: nat, q: nat, from: nat, fs: seq<Fragment>, scratch: Bytes,
                          fragmented: bool, silent: bool)
  {
    if fragmented then Part(crc, file, start, from, fs, q, scratch, silent)
    else start <= q && (silent ==> Quiet(crc, file, start, q))
  }

  lemma NothingYet(crc: Checksum, file: Bytes, start: nat)
    ensures Reading(crc, file, start, start, 0, [], [], false, true)
  {
    hide Quiet;
    QuietSelf(crc, file, start);
  }

  /** After a report nothing is claimed about what has been passed over. */
  lemma Reported(crc: Checksum, file: Bytes, start: nat, q: nat, from: nat, fs: seq<Fragment>, scratch: Bytes)
    requires start <= q
    ensures Reading(crc, file, start, q, from, fs, scratch, false, false)
  {
  }

  lemma NothingLost(crc: Checksum, file: Bytes, start: nat, q: nat, from: nat, fs: seq<Fragment>, scratch: Bytes,
                    fragmented: bool)
    requires Reading(crc, file, start, q, from, fs, scratch, fragmented, true) && (fragmented ==> scratch == [])
    ensures Quiet(crc, file, start, q)
  {
    hide Quiet, Run;
    if fragmented {
      forall i | 0 <= i < |fs| ensures fs[i].payload == [] {
        NoPayload(fs, i);
      }
      EmptyRun(crc, file, start, from, fs);
    }
  }

  lemma EndsHere(crc: Checksum, file: Bytes, start: nat, p: nat, q: nat, from: nat, fs: seq<Fragment>, scratch: Bytes,
                 fragmented: bool, silent: bool, r: Physically)
    requires Reading(crc, file, start, p, from, fs, scratch, fragmented, silent)
    requires r == Eof ==> CutOff(file, Place(p))
    requires r != Eof ==> r.Record? && r.kind == EOF_TYPE && Authentic(crc, file, q, r) &&
                          q == After(p, Fragment(r.kind, r.payload))
    ensures silent ==> Ends(crc, file, start)
  {
    hide Quiet, CutOff, Place, Authentic, After;
    if fragmented {
      assert Run(crc, file, from, fs) && AfterAll(from, fs) == p;
    } else {
      assert Run(crc, file, p, []) && AfterAll(p, []) == p;
    }
  }

  lemma BadPasses(crc: Checksum, file: Bytes, start: nat, p: nat, q: nat, from: nat, fs: seq<Fragment>, scratch: Bytes,
                  silent: bool, r: Physically, more: bool)
    requires start <= p <= q
    requires more ==> silent && Reading(crc, file, start, p, from, fs, scratch, false, silent)
    requires more && r == BadRecord ==> Zeroed(file, Place(p)) && InOneBlock(Place(p), q)
    requires r != BadRecord ==> r.Record? && r.kind == BAD_RECORD_TYPE && Authentic(crc, file, q, r) &&
                                q == After(p, Fragment(r.kind, r.payload))
    ensures Reading(crc, file, start, q, from, fs, scratch, false, more)
  {
    hide Quiet, Zeroed, Place, InOneBlock, Authentic, After;
    if more {
      QuietNext(crc, file, start, p, q);
    }
  }

  lemma RunOfOne(crc: Checksum, file: Bytes, p: nat, f: Fragment)
    requires Authentic(crc, file, After(p, f), Record(f.kind, f.payload))
    ensures Run(crc, file, p, [f]) && AfterAll(p, [f]) == After(p, f) && Payloads([f]) == f.payload
  {
    hide Authentic, After;
    assert Run(crc, file, After(p, f), []) && AfterAll(After(p, f), []) == After(p, f) && Payloads([]) == [];
    assert [f][..0] == [] && [f][1..] == [];
  }

  lemma {:induction false} RunGrows(crc: Checksum, file: Bytes, p: nat, fs: seq<Fragment>, f: Fragment)
    requires Run(crc, file, p, fs)
    requires Authentic(crc, file, After(AfterAll(p, fs), f), Record(f.kind, f.payload))
    ensures Run(crc, file, p, fs + [f]) && AfterAll(p, fs + [f]) == After(AfterAll(p, fs), f)
    decreases |fs|
  {
    hide Authentic, After;
    if fs == [] {
      RunOfOne(crc, file, p, f);
      assert fs + [f] == [f];
    } else {
      RunGrows(crc, file, After(p, fs[0]), fs[1..], f);
      assert (fs + [f])[1..] == fs[1..] + [f];
    }
  }

  lemma PayloadsGrow(fs: seq<Fragment>, f: Fragment)
    ensures Payloads(fs + [f]) == Payloads(fs) + f.payload
  {
    assert (fs + [f])[..|fs|] == fs;
  }

  lemma FullStands(crc: Checksum, file: Bytes, start: nat, p: nat, q: nat, from: nat, fs: seq<Fragment>, scratch: Bytes,
                   fragmented: bool, silent: bool, r: Physically, more: bool)
    requires start <= p && r.Record? && r.kind == FULL && q == After(p, Fragment(r.kind, r.payload))
    requires Authentic(crc, file, q, r)
    requires Reading(crc, file, start, p, from, fs, scratch, fragmented, silent)
    requires more ==> silent && (fragmented ==> scratch == [])
    ensures Stands(crc, file, start, q, r.payload, more)
  {
    hide Authentic, After, Run, Quiet, Reading;
    if more {
      NothingLost(crc, file, start, p, from, fs, scratch, fragmented);
    }
    var f := Fragment(r.kind, r.payload);
    RunOfOne(crc, file, p, f);
    assert Run(crc, file, p, [f]) && Complete([f]);
  }

  lemma FirstBegins(crc: Checksum, file: Bytes, start: nat, p: nat, q: nat, from: nat, fs: seq<Fragment>, scratch: Bytes,
                    fragmented: bool, silent: bool, r: Physically, more: bool)
    requires start <= p && r.Record? && r.kind == FIRST && q == After(p, Fragment(r.kind, r.payload))
    requires Authentic(crc, file, q, r)
    requires Reading(crc, file, start, p, from, fs, scratch, fragmented, silent)
    requires more ==> silent && (fragmented ==> scratch == [])
    ensures Reading(crc, file, start, q, p, [Fragment(r.kind, r.payload)], r.payload, true, more)
  {
    hide Authentic, After, Run, Quiet;
    if more {
      NothingLost(crc, file, start, p, from, fs, scratch, fragmented);
    }
    RunOfOne(crc, file, p, Fragment(r.kind, r.payload));
  }

  lemma MiddleGrows(crc: Checksum, file: Bytes, start: nat, p: nat, q: nat, from: nat, fs: seq<Fragment>, scratch: Bytes,
                    silent: bool, r: Physically)
    requires r.Record? && r.kind == MIDDLE && q == After(p, Fragment(r.kind, r.payload)) && Authentic(crc, file, q, r)
    requires Reading(crc, file, start, p, from, fs, scratch, true, silent)
    ensures
      Reading(crc, file, start, q, from, fs + [Fragment(r.kind, r.payload)], scratch + r.payload, true, silent)
  {
    hide Authentic, After, Run, Quiet;
    var f := Fragment(r.kind, r.payload);
    RunGrows(crc, file, from, fs, f);
    PayloadsGrow(fs, f);
  }

  lemma LastEnds(crc: Checksum, file: Bytes, start: nat, p: nat, q: nat, from: nat, fs: seq<Fragment>, scratch: Bytes,
                 silent: bool, r: Physically)
    requires r.Record? && r.kind == LAST && q == After(p, Fragment(r.kind, r.payload)) && Authentic(crc, file, q, r)
    requires Reading(crc, file, start, p, from, fs, scratch, true, silent)
    ensures Stands(crc, file, start, q, scratch + r.payload, silent)
  {
    hide Authentic, After, Run, Quiet;
    var f := Fragment(r.kind, r.payload);
    RunGrows(crc, file, from, fs, f);
    PayloadsGrow(fs, f);
    var all := fs + [f];
    assert all[..|all| - 1] == fs;
    assert Run(crc, file, from, all) && Complete(all);
  }

  lemma ReturnedIsAuthentic(crc: Checksum, file: Bytes, p: nat, q: nat, buffer: Bytes, r: Physically)
    requires p <= q <= |file| && buffer == file[p..q] && r.Record? && HEADER_SIZE + |r.payload| <= |buffer|
    requires r.kind == buffer[6] && r.payload == buffer[HEADER_SIZE..HEADER_SIZE + |r.payload|]
    requires PayloadLength(buffer) == |r.payload|
    requires Unmask(DecodeFixed32(buffer)) == crc([r.kind] + r.payload)
    ensures Authentic(crc, file, p + HEADER_SIZE + |r.payload|, r)
  {
    hide Unmask;
    var end := p + HEADER_SIZE + |r.payload|;
    assert file[p..end] == buffer[..HEADER_SIZE + |r.payload|];
  }

  /** What the buffer tells about the next physical record of a file that begins as it should. */
  lemma GoodHeader(crc: Checksum, file: Bytes, p: nat, q: nat, eof: bool, fs: seq<Fragment>, buffer: Bytes)
    requires Begins(crc, file, p, fs) && InOneBlock(p, q) && p <= q <= |file| && buffer == file[p..q]
    requires HEADER_SIZE <= |buffer| && (if eof then q == |file| else q % BLOCK_SIZE == 0)
    ensures buffer[6] != 0
    ensures var n := HEADER_SIZE + PayloadLength(buffer);
      if n > |buffer| then eof && Delivers(crc, file, p, fs, q, Eof)
      else Unmask(DecodeFixed32(buffer)) == crc(buffer[6..n]) &&
           Delivers(crc, file, p, fs, p + n, Record(buffer[6], buffer[HEADER_SIZE..n]))
  {
    hide Begins, Place, Available, Header, AllFit, DecodeFixed32, Unmask, PayloadLength, InOneBlock;
    assert |buffer| == q - p;
    WholeHeader(p, q);
    HeaderAt(crc, file, p, fs, buffer);
    HeaderFields(crc, fs[0], buffer);
    if HEADER_SIZE + |fs[0].payload| > |buffer| {
      if !eof {
        BlockHoldsAll(p, q, fs[0]);
      }
    } else {
      BufferSplit(buffer, |fs[0].payload|, fs[0].kind);
    }
  }

  lemma MissingHeader(crc: Checksum, file: Bytes, p: nat, fs: seq<Fragment>, q: nat)
    requires Begins(crc, file, p, fs) && fs != [] ==> After(p, fs[0]) > |file|
    ensures Begins(crc, file, p, fs) ==> Delivers(crc, file, p, fs, q, Eof)
  {
    hide After, Begins;
  }

  /** Nothing but the place of the header matters. */
  lemma SamePlace(crc: Checksum, file: Bytes, p: nat, q: nat, fs: seq<Fragment>, q': nat, r: Physically)
    requires q == Place(p)
    ensures Place(q) == q && forall f :: After(q, f) == After(p, f)
    ensures Delivers(crc, file, q, fs, q', r) <==> Delivers(crc, file, p, fs, q', r)
  {
    hide Begins;
  }

  lemma NewBlock(p: nat, n: nat)
    requires p % BLOCK_SIZE == 0 && n <= BLOCK_SIZE
    ensures InOneBlock(p, p + n) && (n == BLOCK_SIZE ==> (p + n) % BLOCK_SIZE == 0)
  {
  }

  lemma NoBytes(p: nat)
    ensures InOneBlock(p, p)
  {
  }

  lemma BufferSplit(buffer: Bytes, length: nat, kind: Byte)
    requires HEADER_SIZE + length <= |buffer| && kind == buffer[6]
    ensures buffer[6..HEADER_SIZE + length] == [kind] + buffer[HEADER_SIZE..HEADER_SIZE + length]
  {
  }

  lemma LaterInBlock(p: nat, n: nat, q: nat)
    requires InOneBlock(p, q) && p + n <= q
    ensures InOneBlock(p + n, q)
  {
    if p + n < q {
      assert (p + n) % BLOCK_SIZE == p % BLOCK_SIZE + n;
    }
  }

  /** No block boundary lies strictly between `p` and `q`. */
  predicate InOneBlock(p: nat, q: nat) {
    p <= q && (p < q ==> q - p <= BLOCK_SIZE - p % BLOCK_SIZE)
  }

  /** Fewer bytes than a header at the end of the file. */
  lemma CutHeader(p: nat, q: nat)
    requires InOneBlock(p, q) && q < p + HEADER_SIZE
    ensures q < Place(p) + HEADER_SIZE
  {
  }

  lemma WholeHeader(p: nat, q: nat)
    requires InOneBlock(p, q) && q >= p + HEADER_SIZE
    ensures Place(p) == p
  {
  }

  lemma BlockHoldsAll(p: nat, q: nat, f: Fragment)
    requires InOneBlock(p, q) && q >= p + HEADER_SIZE && q % BLOCK_SIZE == 0 && Place(p) == p && Fits(p, f)
    ensures HEADER_SIZE + |f.payload| <= q - p
  {
    assert q - p == BLOCK_SIZE - p % BLOCK_SIZE;
  }

  // ---------- whole files ----------

  /** The number of records that lie wholly in the first `n` bytes of the log. */
  function Whole(p: nat, records: seq<Bytes>, n: nat): (r: nat)
    ensures r <= |records|
    decreases |records|
  {
    if records == [] || AfterRecord(p, records[0]) > n then 0
    else 1 + Whole(AfterRecord(p, records[0]), records[1..], n)
  }

  /** `Whole` counts exactly the records that end at or before byte `n`. */
  lemma {:induction false} WholeIsPrefix(crc: Checksum, p: nat, records: seq<Bytes>, n: nat, k: nat)
    requires k <= |records| && p <= n
    ensures k <= Whole(p, records, n) <==> p + |LogImage(crc, p, records[..k])| <= n
    decreases |records|
  {
    LogLength(crc, p, records[..k]);
    if k > 0 {
      var q := AfterRecord(p, records[0]);
      assert records[..k][0] == records[0] && records[..k][1..] == records[1..][..k - 1];
      if q <= n {
        LogLength(crc, q, records[1..][..k - 1]);
        WholeIsPrefix(crc, q, records[1..], n, k - 1);
      }
    }
  }

  lemma ReadsOnPrefix(crc: Checksum, records: seq<Bytes>, n: nat)
    requires n <= |LogImage(crc, 0, records)|
    ensures ReadsOn(crc, LogImage(crc, 0, records)[..n], 0, records)
  {
    LogIsPhysical(crc, 0, records);
    var file := LogImage(crc, 0, records)[..n];
    assert file[0..] == file;
  }

  lemma NoRecords(crc: Checksum)
    ensures LogImage(crc, 0, []) == []
  {
  }

  /** Writes a list of records to a new log file. */
  method WriteAll(crc: Checksum, records: seq<Bytes>) returns (file: Bytes)
    ensures file == LogImage(crc, 0, records)
  {
    hide LogImage, RecordImage, AfterRecords;
    var w := new Writer(crc);
    NoRecords(crc);
    for i := 0 to |records|
      invariant w.Valid() && w.crc == crc && w.dest == LogImage(crc, 0, records[..i])
    {
      assert records[..i + 1] == records[..i] + [records[i]];
      LogLength(crc, 0, records[..i]);
      LogAppend(crc, 0, records[..i], records[i]);
      w.AddRecord(records[i]);
    }
    assert records[..|records|] == records;
    file := w.dest;
  }

  /** Reads a log file of which only the first `n` bytes have survived: the result is exactly the records
      that lie wholly within those bytes, and nothing is reported as corrupted. */
  method ReadAll(crc: Checksum, file: Bytes, ghost records: seq<Bytes>) returns (r: seq<Bytes>, drops: nat)
    requires file <= LogImage(crc, 0, records)
    ensures r == records[..Whole(0, records, |file|)] && drops == 0
  {
    hide ReadsOn, AfterRecord, LogImage;
    ReadsOnPrefix(crc, records, |file|);
    assert file == LogImage(crc, 0, records)[..|file|];
    var reader := new Reader(crc, file);
    r := [];
    ghost var todo := records;
    while true
      invariant reader.Valid() && reader.drops == 0 && reader.file == file && reader.crc == crc
      invariant |r| <= |records| && r == records[..|r|] && todo == records[|r|..]
      invariant ReadsOn(crc, file, reader.Pos(), todo)
      invariant Whole(0, records, |file|) == |r| + Whole(reader.Pos(), todo, |file|)
      decreases |todo|
    {
      var ok, record := reader.ReadRecord(todo);
      if !ok {
        drops := reader.drops;
        return;
      }
      assert records[..|r| + 1] == records[..|r|] + [record];
      r := r + [record];
      todo := todo[1..];
    }
  }
}
