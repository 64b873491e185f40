/**
 * A table file opened for reading: an index of (last key, block handle)
 * pairs over sorted data blocks, an optional filter, and an optional
 * per-table block cache. Block decoding, the footer, the filter policy and
 * the meta-index comparator are collaborators given as values.
 */
module Tables {
  import opened Wrappers
  import opened Keys

  /** Where a block lies in the file. */
  datatype BlockHandle = BlockHandle(position: nat, count: nat)

  /** One entry of a data block. */
  datatype Entry = Entry(key: InternalKey, value: seq<byte>)

  /** A decoded data block: its entries in key order. */
  type Block = seq<Entry>

  /** One entry of the index block: the last key of a data block and its handle. */
  datatype IndexEntry = IndexEntry(lastKey: InternalKey, handle: BlockHandle)

  /** One entry of the meta-index block. */
  datatype MetaEntry = MetaEntry(name: string, handle: BlockHandle)

  /** A filter's `KeyMayMatch(position, userKey)`. */
  type Filter = (nat, Key) -> bool

  /** A filter policy: its name and the filter it builds over a block of the file. */
  datatype FilterPolicy = FilterPolicy(name: string, createFilter: BlockHandle -> Filter)

  /** The storage options a table reads. */
  datatype TableOptions = TableOptions(maxBlockCacheSizePerTableFile: int, filterPolicy: Option<FilterPolicy>)

  /**
   * A table file as its collaborators see it: its size, the entries of the
   * index block the footer points to, the meta-index entries, the block
   * each handle decodes to, and the meta-index name comparator.
   */
  datatype FileData = FileData(
    size: nat,
    index: seq<IndexEntry>,
    metaIndex: seq<MetaEntry>,
    readBlock: BlockHandle -> Block,
    compareNames: (string, string) -> int)

  /** The encoded footer length: two padded block handles and the 8-byte magic number. */
  const FooterEncodedLength: nat := 48

  datatype TableError = FileTooShort

  // ---------------------------------------------------------------------
  // Seeking.

  /** The first position of `s` whose element satisfies `p`, or |s| if none does. */
  function FirstWhere<T>(s: seq<T>, p: T -> bool): (r: nat)
    ensures r <= |s|
    ensures forall i :: 0 <= i < r ==> !p(s[i])
    ensures r < |s| ==> p(s[r])
  {
    if s == [] then 0
    else if p(s[0]) then 0
    else 1 + FirstWhere(s[1..], p)
  }

  /** An index or block iterator's `Seek(key)`: the first index entry whose last key is not below `key`. */
  function SeekIndex(index: seq<IndexEntry>, key: InternalKey): nat {
    FirstWhere(index, (e: IndexEntry) => CompareInternal(e.lastKey, key) >= 0)
  }

  /** `Seek(key)` inside a data block: the first entry not below `key`. */
  function SeekBlock(block: Block, key: InternalKey): nat {
    FirstWhere(block, (e: Entry) => CompareInternal(e.key, key) >= 0)
  }

  /** The name the filter block is stored under in the meta-index. */
  function FilterBlockName(policy: FilterPolicy): string {
    "filter." + policy.name
  }

  /** Position i is where the meta-index seek for `name` stops: the first entry not below it. */
  predicate IsMetaSeek(file: FileData, name: string, i: int) {
    && 0 <= i < |file.metaIndex| && file.compareNames(file.metaIndex[i].name, name) >= 0
    && forall j :: 0 <= j < i ==> file.compareNames(file.metaIndex[j].name, name) < 0
  }

  /**
   * The filter a table loads: none without a policy; otherwise the one over
   * the block of the first meta-index entry not below the filter's name,
   * when that entry compares equal to the name.
   */
  function LoadFilter(options: TableOptions, file: FileData): (r: Option<Filter>)
    ensures options.filterPolicy.None? ==> r.None?
    ensures r.Some? ==>
      var name := FilterBlockName(options.filterPolicy.value);
      exists i :: IsMetaSeek(file, name, i) && file.compareNames(name, file.metaIndex[i].name) == 0 &&
        r.value == options.filterPolicy.value.createFilter(file.metaIndex[i].handle)
    ensures options.filterPolicy.Some? ==>
      var name := FilterBlockName(options.filterPolicy.value);
      forall i :: IsMetaSeek(file, name, i) && file.compareNames(name, file.metaIndex[i].name) == 0 ==>
        r == Some(options.filterPolicy.value.createFilter(file.metaIndex[i].handle))
  {
    if options.filterPolicy.None? then None
    else
      var name := FilterBlockName(options.filterPolicy.value);
      var i := FirstWhere(file.metaIndex, (m: MetaEntry) => file.compareNames(m.name, name) >= 0);
      if i < |file.metaIndex| && file.compareNames(name, file.metaIndex[i].name) == 0 then
        Some(options.filterPolicy.value.createFilter(file.metaIndex[i].handle))
      else None
  }

  /**
   * The answer of `InternalGet` for `key`: nothing when no index entry is
   * at or after the key, nothing when the filter rules the key out of the
   * selected block, and otherwise that block's first entry not below the key.
   */
  function Lookup(index: seq<IndexEntry>, filter: Option<Filter>, readBlock: BlockHandle -> Block, key: InternalKey): (r: Option<Entry>)
    ensures (forall i :: 0 <= i < |index| ==> CompareInternal(index[i].lastKey, key) < 0) ==> r.None?
    ensures r.Some? ==>
      var h := index[SeekIndex(index, key)].handle;
      && (filter.None? || filter.value(h.position, key.userKey))
      && r.value in readBlock(h) && CompareInternal(r.value.key, key) >= 0
      && forall j :: 0 <= j < SeekBlock(readBlock(h), key) ==> CompareInternal(readBlock(h)[j].key, key) < 0
  {
    var i := SeekIndex(index, key);
    if i == |index| then None
    else
      var h := index[i].handle;
      if filter.Some? && !filter.value(h.position, key.userKey) then None
      else
        var block := readBlock(h);
        var j := SeekBlock(block, key);
        if j == |block| then None else Some(block[j])
  }

  /** The keys of a block, in order. */
  function KeysOf(block: Block): (r: seq<InternalKey>)
    ensures |r| == |block| && forall j :: 0 <= j < |block| ==> r[j] == block[j].key
  {
    seq(|block|, j requires 0 <= j < |block| => block[j].key)
  }

  /** Every data block's keys: blocks in index order, keys in block order. */
  function AllKeysOf(index: seq<IndexEntry>, readBlock: BlockHandle -> Block): seq<InternalKey> {
    if index == [] then []
    else AllKeysOf(index[..|index| - 1], readBlock) + KeysOf(readBlock(index[|index| - 1].handle))
  }

  // ---------------------------------------------------------------------

  class Table {
    const options: TableOptions
    const fileData: FileData
    /** The index block's entries, read once when the table is opened. */
    const indexBlock: seq<IndexEntry>
    const filter: Option<Filter>
    /** The block cache, when the options give it a size; it never evicts here. */
    var blockCache: Option<map<BlockHandle, Block>>
    /** The usage count each cached block was given. */
    var usage: map<BlockHandle, nat>
    /** The handles of the blocks read from the file, in order. */
    var blocksRead: seq<BlockHandle>

    /** The cache only holds the blocks their handles decode to. */
    ghost predicate Valid()
      reads this
    {
      blockCache.Some? ==> forall h :: h in blockCache.value ==> blockCache.value[h] == fileData.readBlock(h)
    }

    /**
     * The checks and field assignments of the `Table` constructor for a
     * file at least a footer long: a cache only if the options size it,
     * the index block, and the filter `LoadFilter` finds.
     */
    constructor (options: TableOptions, fileData: FileData)
      requires fileData.size >= FooterEncodedLength
      ensures Valid() && this.options == options && this.fileData == fileData
      ensures blockCache == (if options.maxBlockCacheSizePerTableFile > 0 then Some(map[]) else None)
      ensures indexBlock == fileData.index && filter == LoadFilter(options, fileData)
      ensures usage == map[] && blocksRead == []
    {
      this.options := options;
      this.fileData := fileData;
      indexBlock := fileData.index;
      filter := LoadFilter(options, fileData);
      blockCache := if options.maxBlockCacheSizePerTableFile > 0 then Some(map[]) else None;
      usage := map[];
      blocksRead := [];
    }

    /**
     * `CreateBlockIterator`: without a cache every call reads the block;
     * a cache hit returns the cached block and leaves the cache alone; a
     * miss reads the block, counts one more use of it and caches it.
     */
    method CreateBlockIterator(handle: BlockHandle) returns (block: Block)
      requires Valid()
      modifies this
      ensures Valid() && block == fileData.readBlock(handle)
      ensures old(blockCache).None? ==>
        blockCache.None? && usage == old(usage) && blocksRead == old(blocksRead) + [handle]
      ensures old(blockCache).Some? && handle in old(blockCache).value ==>
        blockCache == old(blockCache) && usage == old(usage) && blocksRead == old(blocksRead)
      ensures old(blockCache).Some? && handle !in old(blockCache).value ==>
        && blockCache == Some(old(blockCache).value[handle := block])
        && usage == old(usage)[handle := UsageOf(old(usage), handle) + 1]
        && blocksRead == old(blocksRead) + [handle]
    {
      if blockCache.None? {
        block := fileData.readBlock(handle);
        blocksRead := blocksRead + [handle];
        return;
      }
      if handle in blockCache.value {
        block := blockCache.value[handle];
        return;
      }
      block := fileData.readBlock(handle);
      blocksRead := blocksRead + [handle];
      usage := usage[handle := UsageOf(usage, handle) + 1];
      blockCache := Some(blockCache.value[handle := block]);
    }

    /**
     * `InternalGet`: the answer `Lookup` specifies. No block is read when the
     * index has no entry at or after the key or the filter rules it out.
     */
    method InternalGet(key: InternalKey) returns (r: Option<Entry>)
      requires Valid()
      modifies this
      ensures Valid() && r == Lookup(indexBlock, filter, fileData.readBlock, key)
      ensures var i := SeekIndex(indexBlock, key);
        i == |indexBlock| || (filter.Some? && !filter.value(indexBlock[i].handle.position, key.userKey)) ==>
        blockCache == old(blockCache) && usage == old(usage) && blocksRead == old(blocksRead)
    {
      var i := SeekIndex(indexBlock, key);
      if i == |indexBlock| {
        return None;
      }
      var handle := indexBlock[i].handle;
      if filter.Some? && !filter.value(handle.position, key.userKey) {
        return None;
      }
      var block := CreateBlockIterator(handle);
      var j := SeekBlock(block, key);
      if j == |block| {
        return None;
      }
      return Some(block[j]);
    }

    /** `AllKeys`: every data block's keys, blocks in index order and keys in block order. */
    method AllKeys() returns (keys: seq<InternalKey>)
      requires Valid()
      modifies this
      ensures Valid() && keys == AllKeysOf(indexBlock, fileData.readBlock)
    {
      keys := [];
      var i := 0;
      while i < |indexBlock|
        invariant 0 <= i <= |indexBlock| && Valid()
        invariant keys == AllKeysOf(indexBlock[..i], fileData.readBlock)
      {
        var block := CreateBlockIterator(indexBlock[i].handle);
        ghost var before := keys;
        var j := 0;
        while j < |block|
          invariant 0 <= j <= |block| && keys == before + KeysOf(block[..j])
        {
          assert KeysOf(block[..j + 1]) == KeysOf(block[..j]) + [block[j].key];
          keys := keys + [block[j].key];
          j := j + 1;
        }
        assert block[..j] == block;
        assert indexBlock[..i + 1][..i] == indexBlock[..i];
        i := i + 1;
      }
      assert indexBlock[..i] == indexBlock;
    }
  }

  /** A block's usage count, 0 if it was never counted. */
  function UsageOf(usage: map<BlockHandle, nat>, handle: BlockHandle): nat {
    if handle in usage then usage[handle] else 0
  }

  /**
   * `Table`'s open check: a file shorter than the footer is rejected (a
   * `CorruptedDataException`); any other file opens.
   */
  method OpenTable(options: TableOptions, fileData: FileData) returns (r: Result<Table, TableError>)
    ensures r.Err? <==> fileData.size < FooterEncodedLength
    ensures r.Ok? ==> fresh(r.value) && r.value.Valid() && r.value.fileData == fileData && r.value.blocksRead == []
    ensures r.Ok? ==> (r.value.blockCache.Some? <==> options.maxBlockCacheSizePerTableFile > 0)
    ensures r.Ok? ==> r.value.filter == LoadFilter(options, fileData)
  {
    if fileData.size < FooterEncodedLength {
      return Err(FileTooShort);
    }
    var t := new Table(options, fileData);
    return Ok(t);
  }

  // ---------------------------------------------------------------------
  // A table as the table builder writes it.

  /**
   * The index and the blocks of a built table: one index entry per
   * non-empty block, naming its last key, whose handle decodes to it.
   */
  predicate BuiltFrom(index: seq<IndexEntry>, readBlock: BlockHandle -> Block, blocks: seq<Block>) {
    && |index| == |blocks|
    && forall b :: 0 <= b < |blocks| ==>
         |blocks[b]| > 0 && readBlock(index[b].handle) == blocks[b] && index[b].lastKey == blocks[b][|blocks[b]| - 1].key
  }

  /** User keys strictly increase across the blocks, in block order then entry order. */
  predicate StrictlyIncreasing(blocks: seq<Block>) {
    forall b1, j1, b2, j2 ::
      0 <= b1 < |blocks| && 0 <= j1 < |blocks[b1]| && 0 <= b2 < |blocks| && 0 <= j2 < |blocks[b2]| &&
      (b1 < b2 || (b1 == b2 && j1 < j2)) ==>
      Compare(blocks[b1][j1].key.userKey, blocks[b2][j2].key.userKey) < 0
  }

  /** Every entry was added as a value at sequence 1. */
  predicate AddedAtSequenceOne(blocks: seq<Block>) {
    forall b, j :: 0 <= b < |blocks| && 0 <= j < |blocks[b]| ==>
      blocks[b][j].key.sequence == 1 && blocks[b][j].key.itemType == Value
  }

  /** The filter, if any, never rules out a key stored in the block it is asked about. */
  predicate NoFalseNegatives(filter: Option<Filter>, index: seq<IndexEntry>, blocks: seq<Block>)
    requires |index| == |blocks|
  {
    filter.Some? ==>
      forall b, j :: 0 <= b < |blocks| && 0 <= j < |blocks[b]| ==>
        filter.value(index[b].handle.position, blocks[b][j].key.userKey)
  }

  /** The seek key for `e`'s user key at sequence `s >= 1` sorts at or before `e` itself. */
  lemma SeekKeyAtOrBefore(e: Entry, s: nat)
    requires e.key.sequence == 1 && e.key.itemType == Value && s >= 1
    ensures CompareInternal(e.key, InternalKey(e.key.userKey, s, Value)) >= 0
  {
  }

  /** A key with a smaller user key sorts before the seek key, and one with a larger user key after it. */
  lemma UserKeyDecides(x: InternalKey, q: InternalKey)
    ensures Compare(x.userKey, q.userKey) < 0 ==> CompareInternal(x, q) < 0
    ensures Compare(q.userKey, x.userKey) < 0 ==> CompareInternal(x, q) > 0
  {
    CompareAntisymmetric(q.userKey, x.userKey);
  }

  /** The index seek for a key of block b selects block b. */
  lemma IndexSeekSelects(index: seq<IndexEntry>, readBlock: BlockHandle -> Block, blocks: seq<Block>, b: nat, j: nat, s: nat)
    requires BuiltFrom(index, readBlock, blocks) && StrictlyIncreasing(blocks) && AddedAtSequenceOne(blocks)
    requires b < |blocks| && j < |blocks[b]| && s >= 1
    ensures SeekIndex(index, InternalKey(blocks[b][j].key.userKey, s, Value)) == b
  {
    var e := blocks[b][j];
    var q := InternalKey(e.key.userKey, s, Value);
    forall i | 0 <= i < b
      ensures CompareInternal(index[i].lastKey, q) < 0
    {
      var x := blocks[i][|blocks[i]| - 1];
      assert Compare(x.key.userKey, e.key.userKey) < 0;
      UserKeyDecides(x.key, q);
    }
    var last := |blocks[b]| - 1;
    if last > j {
      assert Compare(e.key.userKey, blocks[b][last].key.userKey) < 0;
      UserKeyDecides(blocks[b][last].key, q);
    } else {
      SeekKeyAtOrBefore(e, s);
    }
    FirstAt(index, (x: IndexEntry) => CompareInternal(x.lastKey, q) >= 0, b);
  }

  /** The block seek for entry j of a block of increasing user keys finds entry j. */
  lemma BlockSeekFinds(blocks: seq<Block>, b: nat, j: nat, s: nat)
    requires StrictlyIncreasing(blocks) && AddedAtSequenceOne(blocks)
    requires b < |blocks| && j < |blocks[b]| && s >= 1
    ensures SeekBlock(blocks[b], InternalKey(blocks[b][j].key.userKey, s, Value)) == j
  {
    var e := blocks[b][j];
    var q := InternalKey(e.key.userKey, s, Value);
    forall k | 0 <= k < j
      ensures CompareInternal(blocks[b][k].key, q) < 0
    {
      assert Compare(blocks[b][k].key.userKey, e.key.userKey) < 0;
      UserKeyDecides(blocks[b][k].key, q);
    }
    SeekKeyAtOrBefore(e, s);
    FirstAt(blocks[b], (x: Entry) => CompareInternal(x.key, q) >= 0, j);
  }

  /**
   * A table built from strictly increasing user keys at sequence 1 answers
   * a seek for any of its keys at sequence `s >= 1` with that key's entry.
   */
  lemma SeekFindsBuiltKey(index: seq<IndexEntry>, filter: Option<Filter>, readBlock: BlockHandle -> Block, blocks: seq<Block>,
                          b: nat, j: nat, s: nat)
    requires BuiltFrom(index, readBlock, blocks) && StrictlyIncreasing(blocks) && AddedAtSequenceOne(blocks)
    requires NoFalseNegatives(filter, index, blocks)
    requires b < |blocks| && j < |blocks[b]| && s >= 1
    ensures Lookup(index, filter, readBlock, InternalKey(blocks[b][j].key.userKey, s, Value)) == Some(blocks[b][j])
  {
    IndexSeekSelects(index, readBlock, blocks, b, j, s);
    BlockSeekFinds(blocks, b, j, s);
  }

  /** The keys of the blocks, blocks in order and keys in block order. */
  function BlockKeys(blocks: seq<Block>): seq<InternalKey> {
    if blocks == [] then [] else BlockKeys(blocks[..|blocks| - 1]) + KeysOf(blocks[|blocks| - 1])
  }

  /** `AllKeys` of a built table lists exactly the keys the blocks were built from, in order. */
  lemma {:induction false} AllKeysOfBuilt(index: seq<IndexEntry>, readBlock: BlockHandle -> Block, blocks: seq<Block>)
    requires BuiltFrom(index, readBlock, blocks)
    ensures AllKeysOf(index, readBlock) == BlockKeys(blocks)
  {
    if blocks != [] {
      var n := |blocks| - 1;
      assert BuiltFrom(index[..n], readBlock, blocks[..n]);
      AllKeysOfBuilt(index[..n], readBlock, blocks[..n]);
    }
  }

  /** The first position satisfying `p` is `i` when `i` satisfies it and none before does. */
  lemma FirstAt<T>(s: seq<T>, p: T -> bool, i: nat)
    requires i < |s| && p(s[i]) && forall k :: 0 <= k < i ==> !p(s[k])
    ensures FirstWhere(s, p) == i
  {
  }
}
