/**
 * A write batch: an ordered list of puts and deletes that is prepared into
 * the memtable's arena, logged, and then applied to the memtable.
 */
module WriteBatches {
  import opened Wrappers
  import opened Keys
  import opened MemTables

  /** The operation codes; their values are the type bytes written to the log. */
  datatype OpKind = PutOp | DeleteOp

  function OpCode(k: OpKind): byte {
    match k
    case PutOp => 0
    case DeleteOp => 1
  }

  /**
   * One operation. `value` is the value stream of a put and absent for a
   * delete; `handle` is set once the operation has been prepared.
   */
  datatype Operation = Operation(op: OpKind, key: Key, value: Option<seq<byte>>, handle: Option<MemoryHandle>)

  /**
   * The batch size as the source computes it. The sum's term parses as
   * `(key.Count + op) == Put ? value.Length : 0`, so only a put with an
   * empty key contributes, and it contributes its value's length.
   */
  function SizeAsWritten(ops: seq<Operation>): nat {
    if ops == [] then 0
    else
      var o := ops[|ops| - 1];
      var term := if |o.key| + OpCode(o.op) as int == 0 && o.value.Some? then |o.value.value| else 0;
      SizeAsWritten(ops[..|ops| - 1]) + term
  }

  /** The item type an operation is applied with. */
  function ItemTypeOf(k: OpKind): ItemType {
    if k == DeleteOp then Deletion else Value
  }

  /** The memtable entries `Apply(mem, sequence)` adds: operation i at `sequence + i`. */
  function AppliedEntries(ops: seq<Operation>, sequence: nat): (r: seq<MemEntry>)
    ensures |r| == |ops|
    ensures forall i :: 0 <= i < |ops| ==>
      r[i] == MemEntry(InternalKey(ops[i].key, sequence + i, ItemTypeOf(ops[i].op)), ops[i].handle)
  {
    if ops == [] then []
    else
      var rest := AppliedEntries(ops[..|ops| - 1], sequence);
      rest + [MemEntry(InternalKey(ops[|ops| - 1].key, sequence + |ops| - 1, ItemTypeOf(ops[|ops| - 1].op)), ops[|ops| - 1].handle)]
  }

  /** The number of operations `Prepare` handles before it stops: all of them, or up to the first delete. */
  function PreparedCount(ops: seq<Operation>, dontDispose: bool): (n: nat)
    ensures n <= |ops|
    ensures forall i :: 0 <= i < n - 1 ==> dontDispose || ops[i].value.Some?
    ensures n < |ops| ==> !dontDispose && n > 0 && ops[n - 1].value.None?
  {
    if dontDispose then |ops| else FirstMissingValue(ops, 0)
  }

  /** One past the index of the first operation without a value stream, or |ops| if there is none. */
  function FirstMissingValue(ops: seq<Operation>, from: nat): (n: nat)
    requires from <= |ops|
    ensures from <= n <= |ops|
    ensures forall i :: from <= i < n - 1 ==> ops[i].value.Some?
    ensures n < |ops| ==> n > from && ops[n - 1].value.None?
    decreases |ops| - from
  {
    if from == |ops| then from
    else if ops[from].value.None? then from + 1
    else FirstMissingValue(ops, from + 1)
  }

  class WriteBatch {
    var ops: seq<Operation>
    var dontDisposeStreamsAfterWrite: bool

    constructor ()
      ensures ops == [] && !dontDisposeStreamsAfterWrite
    {
      ops := [];
      dontDisposeStreamsAfterWrite := false;
    }

    /** The number of operations in the batch. */
    function OperationCount(): (n: nat)
      reads this
      ensures n == |ops|
    {
      |ops|
    }

    function Size(): nat
      reads this
    {
      SizeAsWritten(ops)
    }

    /** Appends a put; earlier operations are unchanged. */
    method Put(key: Key, value: seq<byte>)
      modifies this
      ensures ops == old(ops) + [Operation(PutOp, key, Some(value), None)]
      ensures OperationCount() == old(OperationCount()) + 1
      ensures dontDisposeStreamsAfterWrite == old(dontDisposeStreamsAfterWrite)
    {
      ops := ops + [Operation(PutOp, key, Some(value), None)];
    }

    /** Appends a delete; earlier operations are unchanged. */
    method Delete(key: Key)
      modifies this
      ensures ops == old(ops) + [Operation(DeleteOp, key, None, None)]
      ensures OperationCount() == old(OperationCount()) + 1
      ensures dontDisposeStreamsAfterWrite == old(dontDisposeStreamsAfterWrite)
    {
      ops := ops + [Operation(DeleteOp, key, None, None)];
    }

    /** Adds operation i to the memtable at sequence `sequence + i`, in list order. */
    method Apply(mem: MemTable, sequence: nat)
      modifies mem
      ensures mem.entries == old(mem.entries) + AppliedEntries(ops, sequence)
      ensures mem.arena == old(mem.arena)
    {
      var s := sequence;
      var i := 0;
      while i < |ops|
        invariant 0 <= i <= |ops| && s == sequence + i
        invariant mem.entries == old(mem.entries) + AppliedEntries(ops[..i], sequence)
        invariant mem.arena == old(mem.arena)
      {
        var o := ops[i];
        var itemType := if o.op == DeleteOp then Deletion else Value;
        assert ops[..i + 1][..i] == ops[..i];
        mem.Add(s, itemType, o.key, o.handle);
        s := s + 1;
        i := i + 1;
      }
      assert ops[..i] == ops;
    }

    /**
     * Writes each operation's value into the memtable arena and records its
     * handle. A delete has no value stream: the memtable stores an empty
     * value for it, and unless streams are kept the disposal of the missing
     * stream fails, which ends the preparation right after that operation
     * (`ok` false).
     */
    method Prepare(mem: MemTable) returns (ok: bool)
      modifies this, mem
      ensures var n := PreparedCount(old(ops), dontDisposeStreamsAfterWrite);
        && ok == (n == |ops| && (dontDisposeStreamsAfterWrite || forall i :: 0 <= i < |ops| ==> ops[i].value.Some?))
        && mem.entries == old(mem.entries)
        && PreparedUpTo(ops, old(ops), mem.arena, |old(mem.arena)|, n)
        && mem.arena[..|old(mem.arena)|] == old(mem.arena)
      ensures dontDisposeStreamsAfterWrite == old(dontDisposeStreamsAfterWrite)
    {
      ghost var ops0 := ops;
      ghost var arena0 := mem.arena;
      var i := 0;
      while i < |ops|
        invariant 0 <= i <= |ops| && i <= PreparedCount(ops0, dontDisposeStreamsAfterWrite)
        invariant forall j :: 0 <= j < i ==> dontDisposeStreamsAfterWrite || ops0[j].value.Some?
        invariant mem.entries == old(mem.entries)
        invariant dontDisposeStreamsAfterWrite == old(dontDisposeStreamsAfterWrite)
        invariant PreparedUpTo(ops, ops0, mem.arena, |arena0|, i)
        invariant mem.arena[..|arena0|] == arena0
      {
        var o := ops[i];
        assert o == ops0[i];
        var stream := if o.value.Some? then o.value.value else [];
        ghost var arena1 := mem.arena;
        var h := mem.Write(stream);
        PreparedStep(ops, ops0, arena1, |arena0|, i, h);
        ops := ops[i := o.(handle := Some(h))];
        assert mem.arena[..|arena0|] == arena1[..|arena0|];
        if !dontDisposeStreamsAfterWrite && o.value.None? {
          // disposing the missing stream fails
          PreparedStopsAtDelete(ops0, i);
          assert ops[i].value.None?;
          return false;
        }
        i := i + 1;
      }
      return true;
    }
  }

  /** The stream `Prepare` writes for an operation: its value, or nothing for a delete. */
  function StreamOf(o: Operation): seq<byte> {
    if o.value.Some? then o.value.value else []
  }

  /**
   * The first n operations of `ops0` have been prepared into the arena after
   * its first `base` values: operation j's value is the arena's value
   * `base + j` and its handle points there; the other operations are as
   * they were.
   */
  predicate PreparedUpTo(ops: seq<Operation>, ops0: seq<Operation>, arena: seq<seq<byte>>, base: nat, n: nat) {
    && n <= |ops0| && |ops| == |ops0| && |arena| == base + n
    && (forall j :: 0 <= j < |ops| ==>
         ops[j] == if j < n then ops0[j].(handle := Some(MemoryHandle(base + j, |arena[base + j]|))) else ops0[j])
    && (forall j :: 0 <= j < n ==> arena[base + j] == StreamOf(ops0[j]))
  }

  /** Preparing operation i keeps the first i prepared and adds the i-th. */
  lemma PreparedStep(ops: seq<Operation>, ops0: seq<Operation>, arena: seq<seq<byte>>, base: nat, i: nat, h: MemoryHandle)
    requires PreparedUpTo(ops, ops0, arena, base, i) && i < |ops0|
    requires h == MemoryHandle(|arena|, |StreamOf(ops0[i])|)
    ensures PreparedUpTo(ops[i := ops0[i].(handle := Some(h))], ops0, arena + [StreamOf(ops0[i])], base, i + 1)
  {
  }

  lemma PreparedStopsAtDelete(ops: seq<Operation>, i: nat)
    requires i < |ops| && ops[i].value.None?
    requires forall j :: 0 <= j < i ==> ops[j].value.Some?
    ensures PreparedCount(ops, false) == i + 1
  {
    FirstMissingBeyond(ops, 0, i);
  }

  lemma {:induction false} FirstMissingBeyond(ops: seq<Operation>, from: nat, i: nat)
    requires from <= i < |ops| && ops[i].value.None?
    requires forall j :: from <= j < i ==> ops[j].value.Some?
    ensures FirstMissingValue(ops, from) == i + 1
    decreases i - from
  {
    if from < i {
      FirstMissingBeyond(ops, from + 1, i);
    }
  }

  /** Only a put with an empty key adds to the batch size; every other operation adds nothing. */
  lemma {:induction false} SizeCountsOnlyEmptyKeyPuts(ops: seq<Operation>)
    requires forall i :: 0 <= i < |ops| ==> |ops[i].key| > 0 || ops[i].op == DeleteOp
    ensures SizeAsWritten(ops) == 0
  {
    if ops != [] {
      SizeCountsOnlyEmptyKeyPuts(ops[..|ops| - 1]);
    }
  }

  /** A put with an empty key adds its value's length. */
  lemma SizeOfEmptyKeyPut(ops: seq<Operation>, value: seq<byte>)
    ensures SizeAsWritten(ops + [Operation(PutOp, [], Some(value), None)]) == SizeAsWritten(ops) + |value|
  {
    assert (ops + [Operation(PutOp, [], Some(value), None)])[..|ops|] == ops;
  }
}
