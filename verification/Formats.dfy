/** The formats in numbers: what a program that shares no code with this one finds in the files. */
module Formats {
  import opened Coding
  import opened DbFormat
  import Block
  import Comparator
  import Crc32c
  import FilterBlock
  import LogFormat
  import Table
  import VersionEdit
  import WriteBatch

  lemma OneByte(n: nat)
    requires n < 128
    ensures Varint(n) == [n]
  {
  }

  lemma SmallFixed(n: nat)
    requires n < 256
    ensures EncodeFixed32(n) == [n, 0, 0, 0]
  {
  }

  // ---------- logs (db/log_format.h, lines 14-31; db/log_writer.cc, lines 34-108) ----------

  /** A record is one physical record of type 1, or a first of type 2, any of type 3 and a last of type 4.  Each but the last
      ends with a block of 32768 bytes. */
  lemma FragmentsAre(p: nat, data: Bytes)
    ensures
      var fs := LogFormat.Fragments(p, data, true);
      && (|fs| == 1 ==> fs[0].kind == 1)
      && (|fs| > 1 ==> fs[0].kind == 2 && fs[|fs| - 1].kind == 4 && forall i :: 0 < i < |fs| - 1 ==> fs[i].kind == 3)
      && (forall i :: 0 <= i < |fs| - 1 ==> End(p, fs, i) % 32768 == 0)
      && Joined(fs) == data
  {
    hide LogFormat.Fragments, End;
    var fs := LogFormat.Fragments(p, data, true);
    JoinedAgain(p, data, true);
    forall i | 0 <= i < |fs|
      ensures fs[i].kind == (if i == 0 then if |fs| == 1 then 1 else 2 else if i == |fs| - 1 then 4 else 3)
      ensures i < |fs| - 1 ==> End(p, fs, i) % 32768 == 0
    {
      FragmentIs(p, data, true, i);
    }
  }

  /** The position behind the `i`th of the physical records written from position `p` on. */
  function End(p: nat, fs: seq<LogFormat.Fragment>, i: nat): nat
    requires i < |fs|
    decreases i
  {
    if i == 0 then LogFormat.After(p, fs[0]) else End(LogFormat.After(p, fs[0]), fs[1..], i - 1)
  }

  lemma {:induction false} FragmentIs(p: nat, data: Bytes, begin: bool, i: nat)
    requires i < |LogFormat.Fragments(p, data, begin)|
    ensures
      var fs := LogFormat.Fragments(p, data, begin);
      && fs[i].kind == (if i == 0 && begin then if |fs| == 1 then 1 else 2 else if i == |fs| - 1 then 4 else 3)
      && (i < |fs| - 1 ==> End(p, fs, i) % 32768 == 0)
    decreases i
  {
    hide LogFormat.Place, LogFormat.Available;
    var q := LogFormat.Place(p);
    var room := LogFormat.Available(q);
    if |data| > room {
      NextBlock(q);
      var next := q + 7 + room;
      var rest := LogFormat.Fragments(next, data[room..], false);
      assert LogFormat.Fragments(p, data, begin)[1..] == rest;
      if i > 0 {
        FragmentIs(next, data[room..], false, i - 1);
      }
    }
  }

  lemma {:induction false} JoinedAgain(p: nat, data: Bytes, begin: bool)
    ensures Joined(LogFormat.Fragments(p, data, begin)) == data
    decreases |LogFormat.Fragments(p, data, begin)|
  {
    hide LogFormat.Place, LogFormat.Available;
    var fs, room := LogFormat.Fragments(p, data, begin), LogFormat.Available(LogFormat.Place(p));
    if |data| <= room {
      assert Joined([]) == [] && fs[1..] == [] && data + [] == data;
    } else {
      var rest := LogFormat.Fragments(LogFormat.Place(p) + 7 + room, data[room..], false);
      assert fs[1..] == rest;
      JoinedAgain(LogFormat.Place(p) + 7 + room, data[room..], false);
      hide LogFormat.Fragments;
      assert data[..room] + data[room..] == data;
    }
  }

  lemma NextBlock(q: nat)
    requires q % 32768 <= 32768 - 7
    ensures (q + 7 + LogFormat.Available(q)) % 32768 == 0
  {
  }

  function Joined(fs: seq<LogFormat.Fragment>): Bytes {
    if fs == [] then [] else fs[0].payload + Joined(fs[1..])
  }

  /** Seven bytes: the masked checksum of type and payload, the length, and the type; never where fewer than seven bytes
      are left of a block. */
  lemma HeaderIs(crc: LogFormat.Checksum, f: LogFormat.Fragment, p: nat)
    requires |f.payload| < 0x1_0000
    ensures
      var h := LogFormat.Header(crc, f);
      && |h| == 7 && h[6] == f.kind
      && Digits256(h[..4]) == LogFormat.Mask(crc([f.kind] + f.payload))
      && Digits256(h[4..6]) == |f.payload|
    ensures
      var q := LogFormat.Place(p);
      if p % 32768 <= 32761 then q == p else p < q < p + 7 && q % 32768 == 0
  {
    var h := LogFormat.Header(crc, f);
    Fixed32Is(h[..4], LogFormat.Mask(crc([f.kind] + f.payload)));
    assert h[4..6][1..] == [h[5]] && [h[5]][1..] == [];
    var low: int, high: int := h[4], h[5];
    assert Digits256([h[5]]) == high && Digits256(h[4..6]) == low + 256 * high;
  }

  /** Rotated right by 15 bits, and 0xa282ead8 added. */
  lemma MaskIs(high: nat, low: nat)
    requires high < 0x2_0000 && low < 0x8000
    ensures LogFormat.Mask(high * 0x8000 + low) == (low * 0x2_0000 + high + 0xa282ead8) % 0x1_0000_0000
  {
    var crc := high * 0x8000 + low;
    assert crc / 0x8000 == high && crc % 0x8000 == low;
  }

  // ---------- batches (db/write_batch.cc, lines 27-32, 83-107) ----------

  /** Twelve bytes with sequence number and count; type 1, key and value for a put, type 0 and key for a deletion. */
  lemma BatchIs(sn: Word64, key: Bytes, val: Bytes)
    requires |key| < 128 && |val| < 128
    ensures
      WriteBatch.Header(sn, 2) + WriteBatch.Image([WriteBatch.Put(key, val), WriteBatch.Delete(key)]) ==
      EncodeFixed64(sn) + [2, 0, 0, 0] + ([1, |key|] + key + [|val|] + val + ([0, |key|] + key))
  {
    hide Varint, EncodeFixed64;
    OneByte(|key|);
    OneByte(|val|);
    SmallFixed(2);
    hide EncodeFixed32;
    var put, del := WriteBatch.Put(key, val), WriteBatch.Delete(key);
    assert WriteBatch.RecordImage(put) == [1, |key|] + key + [|val|] + val;
    assert WriteBatch.RecordImage(del) == [0, |key|] + key;
    hide WriteBatch.RecordImage;
    assert [put, del][..1] == [put] && [put][..0] == [] && WriteBatch.Image([]) == [];
    assert WriteBatch.Image([put]) == [] + WriteBatch.RecordImage(put) == WriteBatch.RecordImage(put);
  }

  // ---------- edits (db/version_edit.cc, lines 14-25, 41-84) ----------

  /** The tags of the items: 1 comparator, 2 log number, 3 next file number, 4 last sequence number, 5 compact pointer,
      6 deleted file, 7 new file, 9 previous log number. */
  lemma ItemsAre(level: nat, n: nat, size: nat, key: Bytes, other: Bytes)
    requires level < 7 && n < 128 && size < 128 && |key| < 128 && |other| < 128
    ensures VersionEdit.ItemImage(VersionEdit.Comparator(key)) == [1, |key|] + key
    ensures VersionEdit.ItemImage(VersionEdit.Number(VersionEdit.LogNumber, n)) == [2, n]
    ensures VersionEdit.ItemImage(VersionEdit.Number(VersionEdit.NextFileNumber, n)) == [3, n]
    ensures VersionEdit.ItemImage(VersionEdit.Number(VersionEdit.LastSequence, n)) == [4, n]
    ensures VersionEdit.ItemImage(VersionEdit.CompactPointer(level, key)) == [5, level, |key|] + key
    ensures VersionEdit.ItemImage(VersionEdit.DeletedFile(level, n)) == [6, level, n]
    ensures VersionEdit.ItemImage(VersionEdit.Number(VersionEdit.PrevLogNumber, n)) == [9, n]
    ensures VersionEdit.ItemImage(VersionEdit.NewFile(level, VersionEdit.Meta(n, size, key, other))) ==
            [7, level, n, size, |key|] + key + ([|other|] + other)
  {
    NumbersAre(n);
    KeysAre(level, n, key);
    NewFileIs(level, VersionEdit.Meta(n, size, key, other));
  }

  lemma NumbersAre(n: nat)
    requires n < 128
    ensures VersionEdit.ItemImage(VersionEdit.Number(VersionEdit.LogNumber, n)) == [2, n]
    ensures VersionEdit.ItemImage(VersionEdit.Number(VersionEdit.NextFileNumber, n)) == [3, n]
    ensures VersionEdit.ItemImage(VersionEdit.Number(VersionEdit.LastSequence, n)) == [4, n]
    ensures VersionEdit.ItemImage(VersionEdit.Number(VersionEdit.PrevLogNumber, n)) == [9, n]
  {
    Tags();
    OneByte(n);
    hide Varint;
  }

  lemma KeysAre(level: nat, n: nat, key: Bytes)
    requires level < 7 && n < 128 && |key| < 128
    ensures VersionEdit.ItemImage(VersionEdit.Comparator(key)) == [1, |key|] + key
    ensures VersionEdit.ItemImage(VersionEdit.CompactPointer(level, key)) == [5, level, |key|] + key
    ensures VersionEdit.ItemImage(VersionEdit.DeletedFile(level, n)) == [6, level, n]
  {
    Tags();
    OneByte(level);
    OneByte(n);
    OneByte(|key|);
    hide Varint;
    PrependTwo(level, |key|, key);
  }

  lemma PrependTwo(level: Byte, n: Byte, a: Bytes)
    ensures [5] + ([level] + ([n] + a)) == [5, level, n] + a
    ensures [1] + ([n] + a) == [1, n] + a
  {
  }

  lemma NewFileIs(level: nat, f: VersionEdit.Meta)
    requires level < 7 && f.number < 128 && f.size < 128 && |f.smallest| < 128 && |f.largest| < 128
    ensures VersionEdit.ItemImage(VersionEdit.NewFile(level, f)) ==
            [7, level, f.number, f.size, |f.smallest|] + f.smallest + ([|f.largest|] + f.largest)
  {
    OneByte(7);
    OneByte(level);
    MetaIs(f);
    hide Varint, VersionEdit.MetaImage;
    Prepend(level, f.number, f.size, |f.smallest|, f.smallest, [|f.largest|] + f.largest);
  }

  lemma Prepend(level: Byte, number: Byte, size: Byte, n: Byte, a: Bytes, b: Bytes)
    ensures [7] + ([level] + ([number, size, n] + (a + b))) == [7, level, number, size, n] + a + b
  {
  }

  lemma MetaIs(f: VersionEdit.Meta)
    requires f.number < 128 && f.size < 128 && |f.smallest| < 128 && |f.largest| < 128
    ensures VersionEdit.MetaImage(f) ==
            [f.number, f.size, |f.smallest|] + (f.smallest + ([|f.largest|] + f.largest))
  {
    OneByte(f.number);
    OneByte(f.size);
    OneByte(|f.smallest|);
    OneByte(|f.largest|);
    hide Varint;
  }

  lemma Tags()
    ensures Varint(1) == [1] && Varint(2) == [2] && Varint(3) == [3] && Varint(4) == [4]
    ensures Varint(5) == [5] && Varint(6) == [6] && Varint(7) == [7] && Varint(9) == [9]
  {
  }

  // ---------- tables (table/block_builder.cc, lines 10-106; table/format.cc, lines 13-18; table/filter_block.cc) ----------

  /** An entry: the lengths of the shared prefix, of the rest of the key and of the value, and the two strings. */
  lemma EntryIs(shared: nat, p: Block.Pair)
    requires shared <= |p.key| < 128 && |p.val| < 128
    ensures Block.EntryImage(shared, p) == [shared, |p.key| - shared, |p.val|] + p.key[shared..] + p.val
  {
    OneByte(shared);
    OneByte(|p.key| - shared);
    OneByte(|p.val|);
  }

  /** A block of one entry: after the entry the restart point 0 and the number of restart points. */
  lemma BlockIs(p: Block.Pair)
    requires |p.key| < 128 && |p.val| < 128 && Block.SizesFit([p], [0])
    ensures Block.BlockImage([p], [0]) == [0, |p.key|, |p.val|] + p.key + p.val + [0, 0, 0, 0] + [1, 0, 0, 0]
  {
    EntryIs(0, p);
    OneRestart([p]);
    OneEntry(p);
    assert p.key[0..] == p.key;
    hide Block.EntryImage, Block.Data, EncodeFixed32, Block.Trailer, Block.RestartOffsets;
  }

  lemma OneEntry(p: Block.Pair)
    ensures Block.Data([p], [0], 1) == Block.EntryImage(0, p)
  {
    hide Block.EntryImage;
    assert Block.Data([p], [0], 0) == [];
    assert [] + Block.EntryImage(0, p) == Block.EntryImage(0, p);
  }

  lemma OneRestart(pairs: seq<Block.Pair>)
    requires Block.StartsOk([0], |pairs|) && Block.Offset(pairs, [0], |pairs|) < TWO_32
    ensures Block.Trailer(Block.RestartOffsets(pairs, [0], 1)) == [0, 0, 0, 0] + [1, 0, 0, 0]
  {
    SmallFixed(0);
    SmallFixed(1);
    hide EncodeFixed32;
    var words := Block.RestartOffsets(pairs, [0], 1);
    assert Block.Offset(pairs, [0], 0) == 0;
    assert words == [0];
    OneWord(0);
  }

  lemma OneWord(w: Word)
    ensures Block.RestartArray([w]) == EncodeFixed32(w)
  {
    hide EncodeFixed32;
    assert [w][..0] == [] && Block.RestartArray([]) == [];
    assert [] + EncodeFixed32(w) == EncodeFixed32(w);
  }

  /** A handle is offset and size; a block is followed by its type, 0, and its masked checksum. */
  lemma StoredBlockIs(crc: Table.Checksum, contents: Bytes, offset: nat, size: nat)
    requires offset < 128 && size < 128
    ensures Table.EncodeHandle(Table.BlockHandle(offset, size)) == [offset, size]
    ensures
      var raw := Table.RawBlock(crc, contents);
      && |raw| == |contents| + 5 && raw[..|contents| + 1] == contents + [0]
      && Digits256(raw[|contents| + 1..]) == LogFormat.Mask(crc(contents + [0]))
  {
    hide LogFormat.Mask, EncodeFixed32;
    OneByte(offset);
    OneByte(size);
    var raw := Table.RawBlock(crc, contents);
    Fixed32Is(raw[|contents| + 1..], LogFormat.Mask(crc(contents + [0])));
  }

  /** A filter block of one filter: the filter, its offset 0, the offset of the offsets, and 11 for 2^11 bytes of data a
      filter. */
  lemma FilterBlockIs(create: FilterBlock.Create, group: seq<Bytes>)
    requires group != [] && |create(group)| < 256
    ensures |FilterBlock.Filters(create, [group])| == |create(group)|
    ensures FilterBlock.Image(create, [group]) == create(group) + [0, 0, 0, 0] + [|create(group)|, 0, 0, 0] + [11]
    ensures FilterBlock.BASE == 2048
  {
    SmallFixed(0);
    SmallFixed(|create(group)|);
    OneWord(0);
    hide EncodeFixed32, Block.RestartArray;
    assert [group][..0] == [] && FilterBlock.Filters(create, []) == [];
    assert FilterBlock.Filters(create, [group]) == [] + create(group);
    assert FilterBlock.OffsetWords(create, [group], 1) == [0];
  }

  /** An internal key: the user key, and eight bytes with the type below the sequence number. */
  lemma InternalKeyIs(user: Bytes, sn: nat, kind: nat)
    requires sn <= MAX_SEQUENCE && kind < 256
    ensures sn * 256 + kind < TWO_64
    ensures
      var k := Comparator.InternalKeyOf(user, sn * 256 + kind);
      |k| == |user| + 8 && k[..|user|] == user && k[|user|] == kind && TagDigits(k[|user|..]) == sn * 256 + kind
  {
    var tag := sn * 256 + kind;
    var t := EncodeFixed64(tag);
    var k := Comparator.InternalKeyOf(user, tag);
    Fixed64Is(t, tag);
    LowByte(sn, kind);
    hide EncodeFixed64;
    assert k == user + t && k[|user|..] == t && k[|user|] == t[0];
  }

  function TagDigits(t: Bytes): nat
    requires |t| == 8
  {
    Digits256(t[..4]) + TWO_32 * Digits256(t[4..])
  }

  lemma LowByte(sn: nat, kind: nat)
    requires sn <= MAX_SEQUENCE && kind < 256
    ensures EncodeFixed64(sn * 256 + kind)[0] == kind
  {
    var tag := sn * 256 + kind;
    assert tag == TWO_32 * (tag / TWO_32) + tag % TWO_32;
    assert tag % TWO_32 % 256 == tag % 256 == kind;
  }
}
