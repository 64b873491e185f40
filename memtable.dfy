/**
 * The in-memory write buffer, kept abstract: a value arena addressed by
 * handles and the list of entries added to it. Its iteration order, skip
 * list and memory accounting belong to code outside this model; only what
 * the write path relies on is stated.
 */
module MemTables {
  import opened Wrappers
  import opened Keys

  /** Where a value was stored in the arena, and how many bytes it has. */
  datatype MemoryHandle = MemoryHandle(index: nat, size: nat)

  /** One entry: an internal key and the handle of its value. */
  datatype MemEntry = MemEntry(key: InternalKey, handle: Option<MemoryHandle>)

  class MemTable {
    var arena: seq<seq<byte>>
    var entries: seq<MemEntry>
    /** Bytes of keys and values held (a stand-in for the table's own accounting). */
    var approximateMemoryUsage: nat

    constructor ()
      ensures arena == [] && entries == [] && approximateMemoryUsage == 0
    {
      arena := [];
      entries := [];
      approximateMemoryUsage := 0;
    }

    /** Stores a value and returns its handle. */
    method Write(value: seq<byte>) returns (h: MemoryHandle)
      modifies this
      ensures h == MemoryHandle(|old(arena)|, |value|)
      ensures arena == old(arena) + [value] && entries == old(entries)
      ensures approximateMemoryUsage == old(approximateMemoryUsage) + |value|
    {
      h := MemoryHandle(|arena|, |value|);
      arena := arena + [value];
      approximateMemoryUsage := approximateMemoryUsage + |value|;
    }

    /** The value a handle refers to, if it refers to one. */
    function Read(h: MemoryHandle): (r: Option<seq<byte>>)
      reads this
      ensures r.Some? <==> h.index < |arena|
      ensures r.Some? ==> r.value == arena[h.index]
    {
      if h.index < |arena| then Some(arena[h.index]) else None
    }

    /** Adds an entry for `key` at sequence `sequence`. */
    method Add(sequence: nat, itemType: ItemType, key: Key, handle: Option<MemoryHandle>)
      modifies this
      ensures entries == old(entries) + [MemEntry(InternalKey(key, sequence, itemType), handle)]
      ensures arena == old(arena)
      ensures approximateMemoryUsage == old(approximateMemoryUsage) + |key|
    {
      entries := entries + [MemEntry(InternalKey(key, sequence, itemType), handle)];
      approximateMemoryUsage := approximateMemoryUsage + |key|;
    }
  }
}
