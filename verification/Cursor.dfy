/** Cursors over a sorted sequence of entries (include/leveldb/iterator.h, lines 24-74). */
module Cursor {
  import opened DbFormat
  import opened Version

  /** A cursor is at an entry, or invalid; nothing is known about where an invalid cursor came from. */
  class EntryCursor {
    const entries: seq<Entry>
    var pos: nat

    ghost predicate Ok()
      reads this
    {
      Sorted(entries) && pos <= |entries|
    }

    predicate Valid()
      reads this
    {
      pos < |entries|
    }

    constructor (entries: seq<Entry>)
      requires Sorted(entries)
      ensures Ok() && !Valid() && this.entries == entries
    {
      this.entries := entries;
      pos := |entries|;
    }

    function Key(): InternalKey
      requires Valid()
      reads this
    {
      entries[pos].key
    }

    function Value(): Val
      requires Valid()
      reads this
    {
      entries[pos].val
    }

    method SeekToFirst()
      requires Ok()
      modifies this
      ensures Ok() && pos == 0
    {
      pos := 0;
    }

    method SeekToLast()
      requires Ok()
      modifies this
      ensures Ok() && pos == if entries == [] then 0 else |entries| - 1
    {
      pos := if entries == [] then 0 else |entries| - 1;
    }

    method Seek(k: InternalKey)
      requires Ok()
      modifies this
      ensures Ok() && pos == FirstAtOrAfter(entries, k)
    {
      pos := FirstAtOrAfter(entries, k);
    }

    method Next()
      requires Ok() && Valid()
      modifies this
      ensures Ok() && pos == old(pos) + 1
    {
      pos := pos + 1;
    }

    method Prev()
      requires Ok() && Valid()
      modifies this
      ensures Ok() && pos == if old(pos) == 0 then |entries| else old(pos) - 1
    {
      pos := if pos == 0 then |entries| else pos - 1;
    }
  }
}
