/**
 * The write path and the memtable compaction: group commit of queued
 * writes, the room-for-write cascade with its memtable switch, the
 * compaction-scheduling guard, and the flush of the immutable memtable to
 * a level-0 table. Awaiting a task or a pulse ends a step: the step
 * reports that it waits, and the caller runs it again later.
 */
module StorageWriters {
  import opened Wrappers
  import opened Keys
  import opened StorageConfig
  import opened Versions
  import opened VersionSets
  import opened MemTables
  import opened WriteBatches
  import opened LogRecords
  import opened StorageStates

  /** A write waiting in the queue: its batch, the batch's size when queued, and its result. */
  class OutstandingWrite {
    const batch: WriteBatch
    const size: nat
    var result: TaskState

    constructor (batch: WriteBatch)
      ensures this.batch == batch && size == batch.Size() && result == TaskRunning
    {
      this.batch := batch;
      size := batch.Size();
      result := TaskRunning;
    }

    /**
     * Whether the write has a result. A faulted or cancelled result is
     * already completed, so the branch that rethrows its exception is
     * never reached.
     */
    function Done(): (r: bool)
      reads this
      ensures r <==> result != TaskRunning
      ensures result.IsFaultedOrCanceled() ==> r
    {
      result.IsCompleted()
    }
  }

  /** The byte budget of a group's followers: 1 MiB, or the head's size plus 128 KiB for a small head. */
  function MaxGroupSize(headSize: nat): (r: nat)
    ensures 128 * 1024 <= r <= 1024 * 1024
    ensures headSize < 128 * 1024 ==> r == headSize + 128 * 1024
  {
    if headSize < 128 * 1024 then headSize + 128 * 1024 else 1024 * 1024
  }

  /** The total queued size of some writes. */
  function SumSizes(ws: seq<OutstandingWrite>): nat {
    if ws == [] then 0 else SumSizes(ws[..|ws| - 1]) + ws[|ws| - 1].size
  }

  /** The queue after its head (`Skip(1)`). */
  function Followers(queue: seq<OutstandingWrite>): seq<OutstandingWrite> {
    if queue == [] then [] else queue[1..]
  }

  /**
   * `group` is the batch group of `mine` over `queue`: mine, then the
   * longest prefix of the followers whose sizes stay within the budget;
   * the first follower left out is the one that exceeds it.
   */
  predicate IsBatchGroup(group: seq<OutstandingWrite>, mine: OutstandingWrite, queue: seq<OutstandingWrite>) {
    var fs := Followers(queue);
    var n := |group| - 1;
    && |group| >= 1 && group[0] == mine && n <= |fs| && group[1..] == fs[..n]
    && SumSizes(fs[..n]) <= MaxGroupSize(mine.size)
    && (n < |fs| ==> SumSizes(fs[..n + 1]) > MaxGroupSize(mine.size))
  }

  /** Prefix sums of sizes never decrease. */
  lemma {:induction false} SumSizesMonotone(ws: seq<OutstandingWrite>, m: nat, n: nat)
    requires m <= n <= |ws|
    ensures SumSizes(ws[..m]) <= SumSizes(ws[..n])
    decreases n - m
  {
    if m < n {
      SumSizesMonotone(ws, m, n - 1);
      assert ws[..n][..n - 1] == ws[..n - 1];
    }
  }

  /**
   * The group is the longest fitting prefix: no longer prefix of the
   * followers stays within the budget, so the group is determined by the
   * queue and the head.
   */
  lemma BatchGroupIsLongest(group: seq<OutstandingWrite>, mine: OutstandingWrite, queue: seq<OutstandingWrite>)
    requires IsBatchGroup(group, mine, queue)
    ensures forall m :: |group| - 1 < m <= |Followers(queue)| ==> SumSizes(Followers(queue)[..m]) > MaxGroupSize(mine.size)
  {
    var fs := Followers(queue);
    forall m | |group| - 1 < m <= |fs|
      ensures SumSizes(fs[..m]) > MaxGroupSize(mine.size)
    {
      SumSizesMonotone(fs, |group|, m);
    }
  }

  /** Two groups of the same head over the same queue are the same group. */
  lemma BatchGroupUnique(g1: seq<OutstandingWrite>, g2: seq<OutstandingWrite>, mine: OutstandingWrite, queue: seq<OutstandingWrite>)
    requires IsBatchGroup(g1, mine, queue) && IsBatchGroup(g2, mine, queue)
    ensures g1 == g2
  {
    BatchGroupIsLongest(g1, mine, queue);
    BatchGroupIsLongest(g2, mine, queue);
    assert |g1| == |g2|;
    assert g1 == [g1[0]] + g1[1..] && g2 == [g2[0]] + g2[1..];
  }

  /** The batches of a group, in order. */
  function Batches(group: seq<OutstandingWrite>): (r: seq<WriteBatch>)
    ensures |r| == |group| && forall k :: 0 <= k < |group| ==> r[k] == group[k].batch
  {
    seq(|group|, k requires 0 <= k < |group| => group[k].batch)
  }

  /** The entries applying every batch of a group at sequence `sequence` adds, batch after batch. */
  function GroupEntries(batches: seq<WriteBatch>, sequence: nat): (r: seq<MemEntry>)
    reads set b | b in batches
    ensures |r| == |AllOps(batches)|
  {
    if batches == [] then []
    else
      GroupEntries(batches[..|batches| - 1], sequence) + AppliedEntries(batches[|batches| - 1].ops, sequence)
  }

  /**
   * Entry p of a group is the group's operation p, and its sequence is
   * `sequence` plus the operation's index within its own batch: every batch
   * of a group starts again at the group's sequence.
   */
  lemma {:induction false} GroupEntryAt(batches: seq<WriteBatch>, sequence: nat, k: nat, i: nat)
    requires k < |batches| && i < |batches[k].ops|
    ensures |AllOps(batches[..k])| + i < |GroupEntries(batches, sequence)|
    ensures GroupEntries(batches, sequence)[|AllOps(batches[..k])| + i] ==
      MemEntry(InternalKey(batches[k].ops[i].key, sequence + i, ItemTypeOf(batches[k].ops[i].op)), batches[k].ops[i].handle)
    decreases |batches|
  {
    var last := |batches| - 1;
    var front := batches[..last];
    assert GroupEntries(batches, sequence) == GroupEntries(front, sequence) + AppliedEntries(batches[last].ops, sequence);
    if k == last {
      assert front == batches[..k];
    } else {
      GroupEntryAt(front, sequence, k, i);
      assert front[..k] == batches[..k];
      assert front[k] == batches[k];
      AllOpsPrefixShorter(batches, k);
    }
  }

  /** The operations of the batches before k and batch k all come before the last batch's operations. */
  lemma AllOpsPrefixShorter(batches: seq<WriteBatch>, k: nat)
    requires k < |batches| - 1
    ensures |AllOps(batches[..k])| + |batches[k].ops| <= |AllOps(batches[..|batches| - 1])|
  {
    AllOpsPrefixLength(batches[..|batches| - 1], k + 1);
    assert batches[..|batches| - 1][..k + 1] == batches[..k + 1];
    assert batches[..k + 1][..k] == batches[..k];
  }

  lemma {:induction false} AllOpsPrefixLength(batches: seq<WriteBatch>, m: nat)
    requires m <= |batches|
    ensures |AllOps(batches[..m])| <= |AllOps(batches)|
    decreases |batches|
  {
    if m < |batches| {
      AllOpsPrefixLength(batches[..|batches| - 1], m);
      assert batches[..|batches| - 1][..m] == batches[..m];
    } else {
      assert batches[..m] == batches;
    }
  }

  /** The first operations of any two batches of a group get the same sequence number. */
  lemma GroupSharesSequence(batches: seq<WriteBatch>, sequence: nat, j: nat, k: nat)
    requires j < |batches| && k < |batches| && |batches[j].ops| > 0 && |batches[k].ops| > 0
    ensures |AllOps(batches[..j])| < |GroupEntries(batches, sequence)| && |AllOps(batches[..k])| < |GroupEntries(batches, sequence)|
    ensures GroupEntries(batches, sequence)[|AllOps(batches[..j])|].key.sequence ==
            GroupEntries(batches, sequence)[|AllOps(batches[..k])|].key.sequence == sequence
  {
    GroupEntryAt(batches, sequence, j, 0);
    GroupEntryAt(batches, sequence, k, 0);
  }

  /** A batch `Prepare` handles completely: it keeps its streams, or it has no delete. */
  predicate Preparable(ops: seq<Operation>, dontDispose: bool) {
    dontDispose || forall i :: 0 <= i < |ops| ==> ops[i].value.Some?
  }

  /** Operations alike but for their handles. */
  predicate SameOperations(ops: seq<Operation>, ops0: seq<Operation>) {
    |ops| == |ops0| && forall j :: 0 <= j < |ops| ==> ops[j].(handle := None) == ops0[j].(handle := None)
  }

  lemma PreparedKeepsOperations(ops: seq<Operation>, ops0: seq<Operation>, arena: seq<seq<byte>>, base: nat, n: nat)
    requires PreparedUpTo(ops, ops0, arena, base, n)
    ensures SameOperations(ops, ops0)
  {
  }

  // ---------------------------------------------------------------------
  // The obsolete-file rule.

  /** `List.IndexOf`: the index of the first occurrence, or -1. */
  function IndexOf(xs: seq<nat>, x: nat): (r: int)
    ensures -1 <= r < |xs|
    ensures r == -1 <==> x !in xs
    ensures r >= 0 ==> xs[r] == x && x !in xs[..r]
  {
    if xs == [] then -1
    else if xs[0] == x then 0
    else
      var r := IndexOf(xs[1..], x);
      assert r >= 0 ==> xs[1..][..r] == xs[1..r + 1];
      if r == -1 then -1 else r + 1
  }

  /** `List.Remove`: drops the first occurrence, if any. */
  function RemoveFirst(xs: seq<nat>, x: nat): (r: seq<nat>)
    ensures x !in xs ==> r == xs
    ensures x in xs ==> var i := IndexOf(xs, x); r == xs[..i] + xs[i + 1..]
  {
    var i := IndexOf(xs, x);
    if i == -1 then xs else xs[..i] + xs[i + 1..]
  }

  /** A number added and removed again leaves the list's contents as they were. */
  lemma RemoveAppended(xs: seq<nat>, x: nat)
    ensures multiset(RemoveFirst(xs + [x], x)) == multiset(xs)
    ensures x !in xs ==> RemoveFirst(xs + [x], x) == xs
  {
    var ys := xs + [x];
    var i := IndexOf(ys, x);
    if x !in xs {
      assert ys[..|xs|] == xs;
      assert x !in ys[..|xs|];
      assert i == |xs|;
      assert ys[i + 1..] == [];
    } else {
      var j := IndexOf(xs, x);
      assert xs[..j] == ys[..j];
      assert ys[j] == x;
      assert i == j;
      assert ys[i + 1..] == xs[i + 1..] + [x];
      assert xs == xs[..i] + [x] + xs[i + 1..];
      calc {
        multiset(RemoveFirst(ys, x));
        multiset(xs[..i] + (xs[i + 1..] + [x]));
        multiset(xs[..i]) + multiset(xs[i + 1..]) + multiset{x};
        multiset(xs[..i] + [x] + xs[i + 1..]);
      }
    }
  }

  /**
   * Whether `DeleteObsoleteFiles` keeps a file. Table and temporary files
   * follow the rule as written: they are deleted when their number's first
   * occurrence in `live` is its last position, or when `live` is empty.
   */
  function Keep(f: FileRef, live: seq<nat>, logNumber: nat, prevLogNumber: nat, manifestFileNumber: nat): bool {
    match f.fileType
    case LogFile => f.number >= logNumber || f.number == prevLogNumber
    case DescriptorFile => f.number >= manifestFileNumber
    case TableFile => IndexOf(live, f.number) != |live| - 1
    case TempFile => IndexOf(live, f.number) != |live| - 1
    case CurrentFile => true
    case DBLockFile => true
    case InfoLogFile => true
  }

  /**
   * A table or temporary file is deleted exactly when `live` is empty, or
   * when its number ends `live` and occurs nowhere before: a number the
   * engine still lists as live can be deleted, and one it does not list
   * is kept.
   */
  lemma TableKeepRule(f: FileRef, live: seq<nat>, logNumber: nat, prevLogNumber: nat, manifestFileNumber: nat)
    requires f.fileType == TableFile || f.fileType == TempFile
    ensures !Keep(f, live, logNumber, prevLogNumber, manifestFileNumber) <==>
      |live| == 0 || (live[|live| - 1] == f.number && f.number !in live[..|live| - 1])
  {
  }

  /** The files of a listing `DeleteObsoleteFiles` deletes, in listing order. */
  function Obsolete(listing: seq<FileRef>, live: seq<nat>, logNumber: nat, prevLogNumber: nat, manifestFileNumber: nat): (r: seq<FileRef>)
    ensures forall f :: f in r ==> f in listing && !Keep(f, live, logNumber, prevLogNumber, manifestFileNumber)
    ensures forall f :: f in listing && !Keep(f, live, logNumber, prevLogNumber, manifestFileNumber) ==> f in r
  {
    if listing == [] then []
    else
      var front := Obsolete(listing[..|listing| - 1], live, logNumber, prevLogNumber, manifestFileNumber);
      var f := listing[|listing| - 1];
      assert forall g :: g in listing ==> g in listing[..|listing| - 1] || g == f;
      if Keep(f, live, logNumber, prevLogNumber, manifestFileNumber) then front else front + [f]
  }

  /** The (memtable-held) files of the current log are never deleted. */
  lemma CurrentLogKept(n: nat, live: seq<nat>, logNumber: nat, prevLogNumber: nat, manifestFileNumber: nat)
    requires n >= logNumber
    ensures Keep(FileRef(n, LogFile), live, logNumber, prevLogNumber, manifestFileNumber)
  {
  }

  // ---------------------------------------------------------------------

  /** How a room-for-write attempt ends. */
  datatype RoomOutcome = RoomReady | RoomFailed | RoomWaiting | RoomSpinning

  /** How one step of `WriteAsync` ends. */
  datatype WriteOutcome =
    | WriteQueued       // another write is at the head of the queue
    | WriteAlreadyDone  // a group leader has written this write
    | WriteFailed       // an exception ends the write
    | WriteWaiting      // awaiting the running background task
    | WriteSpinning     // the cascade would loop without end on a finished task
    | WriteWritten(groupSize: nat)

  /** The outcome of the memtable compaction. */
  datatype CompactStatus = CompactOk | CompactNotInstalled | NoImmutableMemTable

  /**
   * Whether `MaybeScheduleCompaction` starts a background compaction. As
   * written, with no immutable memtable it schedules exactly when the
   * version set does not need a compaction.
   */
  predicate SchedulesCompaction(scheduled: bool, shuttingDown: bool, immutablePresent: bool, needsCompaction: bool) {
    !scheduled && !shuttingDown && !(!immutablePresent && needsCompaction)
  }

  /** With a memtable awaiting compaction, a compaction is started unless one is scheduled or the store shuts down. */
  lemma SchedulesImmutable(scheduled: bool, shuttingDown: bool, needsCompaction: bool)
    ensures SchedulesCompaction(scheduled, shuttingDown, true, needsCompaction) <==> !scheduled && !shuttingDown
  {
  }

  /** Without an immutable memtable, the guard is inverted: a needed compaction is never started. */
  lemma SchedulingInverted(scheduled: bool, shuttingDown: bool, needsCompaction: bool)
    ensures SchedulesCompaction(scheduled, shuttingDown, false, needsCompaction) <==>
      !scheduled && !shuttingDown && !needsCompaction
  {
  }

  /** The branch of the room-for-write cascade a state falls in, checked in this order. */
  datatype RoomCase = CaseFaulted | CaseRoom | CaseImmutablePending | CaseLevel0Full | CaseSwitch

  function RoomCaseOf(faulted: bool, force: bool, room: bool, immutablePresent: bool, level0Files: nat, stopWritesTrigger: nat): RoomCase {
    if faulted then CaseFaulted
    else if !force && room then CaseRoom
    else if immutablePresent then CaseImmutablePending
    else if level0Files >= stopWritesTrigger then CaseLevel0Full
    else CaseSwitch
  }

  /**
   * After a switch the cascade always ends with room: the memtable is
   * empty, `force` is off, and the background task has not faulted.
   */
  lemma SwitchThenRoom(writeBatchSize: nat, level0Files: nat, stopWritesTrigger: nat)
    ensures RoomCaseOf(false, false, 0 <= writeBatchSize, true, level0Files, stopWritesTrigger) == CaseRoom
  {
  }

  /**
   * Prepares every batch of a group into `mem`, in order, stopping at the
   * first that throws. Preparing changes only handles; `ok` tells whether
   * every batch was prepared completely.
   */
  method PrepareAll(batches: seq<WriteBatch>, mem: MemTable) returns (ok: bool)
    modifies mem, set b | b in batches
    ensures mem.entries == old(mem.entries)
    ensures forall k :: 0 <= k < |batches| ==>
      SameOperations(batches[k].ops, old(batches[k].ops)) && batches[k].dontDisposeStreamsAfterWrite == old(batches[k].dontDisposeStreamsAfterWrite)
    ensures ok <==> forall k :: 0 <= k < |batches| ==> Preparable(batches[k].ops, batches[k].dontDisposeStreamsAfterWrite)
  {
    var i := 0;
    while i < |batches|
      invariant 0 <= i <= |batches| && mem.entries == old(mem.entries)
      invariant forall k :: 0 <= k < |batches| ==>
        SameOperations(batches[k].ops, old(batches[k].ops)) && batches[k].dontDisposeStreamsAfterWrite == old(batches[k].dontDisposeStreamsAfterWrite)
      invariant forall k :: 0 <= k < i ==> Preparable(batches[k].ops, batches[k].dontDisposeStreamsAfterWrite)
    {
      var b := batches[i];
      ghost var ops0 := b.ops;
      ghost var arena0 := mem.arena;
      var batchOk := b.Prepare(mem);
      PreparedKeepsOperations(b.ops, ops0, mem.arena, |arena0|, PreparedCount(ops0, b.dontDisposeStreamsAfterWrite));
      PreparableAlike(b.ops, ops0, b.dontDisposeStreamsAfterWrite);
      if !batchOk {
        return false;
      }
      i := i + 1;
    }
    return true;
  }

  /** Operations alike but for their handles are preparable alike; `Prepare` succeeds exactly on preparable batches. */
  lemma PreparableAlike(ops: seq<Operation>, ops0: seq<Operation>, dontDispose: bool)
    requires SameOperations(ops, ops0)
    ensures Preparable(ops, dontDispose) <==> Preparable(ops0, dontDispose)
    ensures Preparable(ops0, dontDispose) ==> PreparedCount(ops0, dontDispose) == |ops0|
  {
    assert forall j :: 0 <= j < |ops| ==> ops[j].value == ops[j].(handle := None).value;
    assert forall j :: 0 <= j < |ops| ==> ops0[j].value == ops0[j].(handle := None).value;
  }

  /** Applies every batch of a group to `mem` at the same sequence, in order. */
  method ApplyAll(batches: seq<WriteBatch>, mem: MemTable, sequence: nat)
    modifies mem
    ensures mem.entries == old(mem.entries) + GroupEntries(batches, sequence)
    ensures mem.arena == old(mem.arena)
  {
    var i := 0;
    while i < |batches|
      invariant 0 <= i <= |batches|
      invariant mem.entries == old(mem.entries) + GroupEntries(batches[..i], sequence)
      invariant mem.arena == old(mem.arena)
    {
      assert batches[..i + 1][..i] == batches[..i];
      ghost var before := mem.entries;
      batches[i].Apply(mem, sequence);
      ConcatAssoc(old(mem.entries), GroupEntries(batches[..i], sequence), AppliedEntries(batches[i].ops, sequence));
      i := i + 1;
    }
    assert batches[..i] == batches;
  }

  /** Sets the result of every write of a group. */
  method MarkCompleted(group: seq<OutstandingWrite>)
    modifies set w | w in group
    ensures forall w :: w in group ==> w.result == TaskRanToCompletion
  {
    var i := 0;
    while i < |group|
      invariant 0 <= i <= |group|
      invariant forall k :: 0 <= k < i ==> group[k].result == TaskRanToCompletion
    {
      group[i].result := TaskRanToCompletion;
      i := i + 1;
    }
  }

  class StorageWriter {
    const state: StorageState
    /** The queue of writes, oldest first; writes are never taken off it. */
    var pendingWrites: seq<OutstandingWrite>
    /** File numbers of tables being built. */
    var pendingOutputs: seq<nat>

    constructor (state: StorageState)
      ensures this.state == state && pendingWrites == [] && pendingOutputs == []
    {
      this.state := state;
      pendingWrites := [];
      pendingOutputs := [];
    }

    /** Queues a new write of `batch` at the tail. */
    method Enqueue(batch: WriteBatch) returns (mine: OutstandingWrite)
      modifies this
      ensures fresh(mine) && mine.batch == batch && mine.size == batch.Size() && mine.result == TaskRunning
      ensures pendingWrites == old(pendingWrites) + [mine] && pendingOutputs == old(pendingOutputs)
    {
      mine := new OutstandingWrite(batch);
      pendingWrites := pendingWrites + [mine];
    }

    /** The group `mine` writes: itself and the followers that fit in the budget. */
    method BuildBatchGroup(mine: OutstandingWrite) returns (list: seq<OutstandingWrite>)
      ensures IsBatchGroup(list, mine, pendingWrites)
      ensures forall w :: w in list[1..] ==> w in pendingWrites
    {
      var maxSize: int := 1024 * 1024;
      if mine.size < 128 * 1024 {
        maxSize := mine.size + 128 * 1024;
      }
      ghost var budget := maxSize;
      list := [mine];
      var fs := if pendingWrites == [] then [] else pendingWrites[1..];
      var i := 0;
      while i < |fs|
        invariant 0 <= i <= |fs| && list == [mine] + fs[..i]
        invariant maxSize == budget - SumSizes(fs[..i]) && maxSize >= 0
      {
        assert fs[..i + 1][..i] == fs[..i];
        maxSize := maxSize - fs[i].size;
        if maxSize < 0 {
          break;
        }
        list := list + [fs[i]];
        i := i + 1;
      }
      assert list[1..] == fs[..i];
    }

    /**
     * Starts a background compaction unless one is scheduled, the store
     * shuts down, or (as written) there is no immutable memtable and the
     * version set needs a compaction.
     */
    method MaybeScheduleCompaction()
      requires state.Valid()
      modifies state
      ensures var go := SchedulesCompaction(old(state.backgroundCompactionScheduled), old(state.shuttingDown),
                                            old(state.immutableMemTable) != null, old(state.versionSet.NeedsCompaction()));
        && (go ==> state.backgroundCompactionScheduled && state.backgroundTask == TaskRunning)
        && (!go ==> state.backgroundCompactionScheduled == old(state.backgroundCompactionScheduled)
                    && state.backgroundTask == old(state.backgroundTask))
      ensures state.memTable == old(state.memTable) && state.immutableMemTable == old(state.immutableMemTable)
      ensures state.shuttingDown == old(state.shuttingDown) && state.versionSet == old(state.versionSet)
      ensures state.logWriter == old(state.logWriter) && state.logContents == old(state.logContents)
      ensures state.logFileNumber == old(state.logFileNumber) && state.descriptorLogWriter == old(state.descriptorLogWriter)
      ensures state.deletedFiles == old(state.deletedFiles)
    {
      if state.backgroundCompactionScheduled {
        return;
      }
      if state.shuttingDown {
        return;
      }
      if state.immutableMemTable == null && state.versionSet.NeedsCompaction() {
        return;
      }
      state.backgroundCompactionScheduled := true;
      state.backgroundTask := TaskRunning;
    }

    /**
     * The room-for-write cascade (`MakeRoomForWrite`). A faulted background
     * task ends it with the task's exception; a slowdown delay happens at
     * most once (`delays`); room in the memtable ends it; a pending
     * immutable memtable or a full level 0 awaits the background task,
     * which either is still running (`RoomWaiting`) or has finished, so
     * that the loop would retry the same state for ever (`RoomSpinning`).
     * Otherwise the memtable is switched: a new log, the memtable becomes
     * immutable, a fresh one takes its place and a compaction is scheduled,
     * after which there is room. Disposing a missing log writer, or a new
     * log that cannot be opened, ends it with an exception.
     */
    method MakeRoomForWrite(force0: bool, openFails: bool) returns (outcome: RoomOutcome, delays: nat)
      requires state.Valid()
      modifies state, state.versionSet
      ensures state.Valid() && state.versionSet == old(state.versionSet) && state.versionSet.current == old(state.versionSet.current)
      ensures var faulted := old(state.backgroundTask).IsFaultedOrCanceled();
        delays == (if !force0 && !faulted && old(state.versionSet.GetNumberOfFilesAtLevel(0)) >= state.cfg.slowdownWritesTrigger then 1 else 0)
      ensures var c := RoomCaseOf(old(state.backgroundTask).IsFaultedOrCanceled(), force0,
                                  old(state.memTable.approximateMemoryUsage) <= state.cfg.writeBatchSize,
                                  old(state.immutableMemTable) != null,
                                  old(state.versionSet.GetNumberOfFilesAtLevel(0)), state.cfg.stopWritesTrigger);
        && (c == CaseFaulted ==> outcome == RoomFailed)
        && (c == CaseRoom ==> outcome == RoomReady)
        && (c == CaseImmutablePending || c == CaseLevel0Full ==>
              outcome == if old(state.backgroundTask) == TaskRunning then RoomWaiting else RoomSpinning)
        && (c == CaseSwitch && (old(state.logWriter).None? || openFails) ==> outcome == RoomFailed)
        && (c == CaseSwitch && old(state.logWriter).Some? && !openFails ==> outcome == RoomReady && Switched())
        && (!(c == CaseSwitch && old(state.logWriter).Some? && !openFails) ==> state.Unchanged())
    {
      var force := force0;
      var allowDelay := !force;
      delays := 0;
      ghost var first := true;
      ghost var switched := false;
      while true
        invariant state.Valid() && state.versionSet == old(state.versionSet) && state.versionSet.current == old(state.versionSet.current)
        invariant allowDelay ==> !force0
        invariant first ==> allowDelay == !force0
        invariant !force0 && !allowDelay ==> old(state.versionSet.GetNumberOfFilesAtLevel(0)) >= state.cfg.slowdownWritesTrigger
        invariant delays == (if !force0 && !allowDelay then 1 else 0)
        invariant !first ==> !old(state.backgroundTask).IsFaultedOrCanceled() && !state.backgroundTask.IsFaultedOrCanceled()
        invariant !first && allowDelay ==> state.versionSet.GetNumberOfFilesAtLevel(0) < state.cfg.slowdownWritesTrigger
        invariant !switched ==> state.Unchanged() && force == force0
        invariant switched ==> !first && !force && Switched() && state.immutableMemTable != null
        invariant switched ==> RoomCaseOf(false, force0, old(state.memTable.approximateMemoryUsage) <= state.cfg.writeBatchSize,
                                          false, old(state.versionSet.GetNumberOfFilesAtLevel(0)), state.cfg.stopWritesTrigger) == CaseSwitch
        invariant switched ==> old(state.logWriter).Some? && !openFails && old(state.immutableMemTable) == null
        decreases (if allowDelay then 1 else 0) + (if state.immutableMemTable == null then 2 else 0) + (if force then 1 else 0)
      {
        if state.backgroundTask.IsFaultedOrCanceled() {
          // awaiting the faulted task rethrows its exception
          return RoomFailed, delays;
        } else if allowDelay && state.versionSet.GetNumberOfFilesAtLevel(0) >= state.cfg.slowdownWritesTrigger {
          // a 1 ms delay with the lock released
          allowDelay := false;
          delays := 1;
        } else if !force && state.memTable.approximateMemoryUsage <= state.cfg.writeBatchSize {
          return RoomReady, delays;
        } else if state.immutableMemTable != null {
          return if state.backgroundTask == TaskRunning then RoomWaiting else RoomSpinning, delays;
        } else if state.versionSet.GetNumberOfFilesAtLevel(0) >= state.cfg.stopWritesTrigger {
          return if state.backgroundTask == TaskRunning then RoomWaiting else RoomSpinning, delays;
        } else {
          if state.logWriter.None? {
            // disposing the missing log writer throws
            return RoomFailed, delays;
          }
          var logOpened := state.CreateNewLog(openFails);
          if !logOpened {
            return RoomFailed, delays;
          }
          state.immutableMemTable := state.memTable;
          state.memTable := new MemTable();
          force := false;
          MaybeScheduleCompaction();
          switched := true;
        }
        first := false;
      }
    }

    /**
     * The state a memtable switch leaves: the old memtable is immutable, a
     * fresh empty one takes its place, a new log with the next file number
     * is open and empty, and a compaction is scheduled unless one already
     * was or the store shuts down.
     */
    twostate predicate Switched()
      reads this, state, state.memTable, state.versionSet
    {
      && state.immutableMemTable == old(state.memTable)
      && fresh(state.memTable) && state.memTable.entries == [] && state.memTable.arena == []
      && state.memTable.approximateMemoryUsage == 0
      && state.logFileNumber == old(state.versionSet.nextFileNumber)
      && state.versionSet.nextFileNumber == old(state.versionSet.nextFileNumber) + 1
      && state.logWriter == Some(LogWriter(state.logFileNumber)) && state.logContents == []
      && state.backgroundCompactionScheduled == (old(state.backgroundCompactionScheduled) || !old(state.shuttingDown))
      && state.backgroundTask == (if old(state.backgroundCompactionScheduled) || old(state.shuttingDown) then old(state.backgroundTask) else TaskRunning)
      && state.shuttingDown == old(state.shuttingDown) && state.descriptorLogWriter == old(state.descriptorLogWriter)
      && state.deletedFiles == old(state.deletedFiles)
      && state.versionSet.lastSequence == old(state.versionSet.lastSequence)
      && state.versionSet.logNumber == old(state.versionSet.logNumber)
      && state.versionSet.prevLogNumber == old(state.versionSet.prevLogNumber)
      && state.versionSet.manifestFileNumber == old(state.versionSet.manifestFileNumber)
    }

    /**
     * The leader's part of `WriteAsync` once there is room: the group is
     * built, every batch prepared, the group logged as one record at
     * `LastSequence + 1`, every batch applied at that same sequence,
     * `LastSequence` advanced by the number of batches, and every write of
     * the group completed. A batch that cannot be prepared, a missing log
     * writer or a value that cannot be read for the log throws (`ok`
     * false): no write is completed and `LastSequence` stays.
     */
    method WriteGroup(mine: OutstandingWrite) returns (ok: bool, group: seq<OutstandingWrite>, currentSequence: nat)
      requires state.Valid() && |pendingWrites| > 0 && pendingWrites[0] == mine
      modifies state, state.memTable, state.versionSet, set w | w in pendingWrites, set w | w in pendingWrites :: w.batch
      ensures IsBatchGroup(group, mine, pendingWrites) && forall w :: w in group ==> w in pendingWrites
      ensures state.Valid() && state.memTable == old(state.memTable) && state.versionSet == old(state.versionSet)
      ensures state.versionSet.current == old(state.versionSet.current)
      ensures currentSequence == old(state.versionSet.lastSequence) + 1
      ensures ok ==>
        && state.versionSet.lastSequence == old(state.versionSet.lastSequence) + |group|
        && (forall w :: w in group ==> w.result == TaskRanToCompletion)
        && |state.logContents| == |old(state.logContents)| + 1
        && state.logContents[..|old(state.logContents)|] == old(state.logContents)
        && EncodeRecord(currentSequence, AllOps(Batches(group)), state.memTable.arena) == Ok(state.logContents[|old(state.logContents)|])
        && state.memTable.entries == old(state.memTable.entries) + GroupEntries(Batches(group), currentSequence)
      ensures !ok ==>
        && state.versionSet.lastSequence == old(state.versionSet.lastSequence) && state.logContents == old(state.logContents)
        && (forall w :: w in pendingWrites ==> w.result == old(w.result))
        && state.memTable.entries == old(state.memTable.entries)
      ensures state.immutableMemTable == old(state.immutableMemTable) && state.logWriter == old(state.logWriter)
      ensures state.backgroundTask == old(state.backgroundTask) && state.backgroundCompactionScheduled == old(state.backgroundCompactionScheduled)
    {
      var lastSequence := state.versionSet.lastSequence;
      group := BuildBatchGroup(mine);
      currentSequence := lastSequence + 1;
      lastSequence := lastSequence + |group|;
      var batches := Batches(group);
      ok := PrepareAll(batches, state.memTable);
      if !ok {
        return;
      }
      ok := CommitGroup(group, batches, currentSequence, lastSequence);
    }

    /**
     * The second half of `WriteGroup`: logs the prepared group as one
     * record, applies it, advances `LastSequence` to `lastSequence` and
     * completes the group's writes.
     */
    method CommitGroup(group: seq<OutstandingWrite>, batches: seq<WriteBatch>, sequence: nat, lastSequence: nat) returns (ok: bool)
      requires state.Valid() && lastSequence >= state.versionSet.lastSequence
      modifies state, state.memTable, state.versionSet, set w | w in group
      ensures state.Valid() && state.memTable == old(state.memTable) && state.versionSet == old(state.versionSet)
      ensures state.versionSet.current == old(state.versionSet.current)
      ensures ok ==>
        && state.versionSet.lastSequence == lastSequence
        && (forall w :: w in group ==> w.result == TaskRanToCompletion)
        && |state.logContents| == |old(state.logContents)| + 1
        && state.logContents[..|old(state.logContents)|] == old(state.logContents)
        && EncodeRecord(sequence, AllOps(batches), state.memTable.arena) == Ok(state.logContents[|old(state.logContents)|])
        && state.memTable.entries == old(state.memTable.entries) + GroupEntries(batches, sequence)
      ensures !ok ==> state.Unchanged() && state.memTable.entries == old(state.memTable.entries)
      ensures !ok ==> forall w :: w in group ==> w.result == old(w.result)
      ensures state.immutableMemTable == old(state.immutableMemTable) && state.logWriter == old(state.logWriter)
      ensures state.backgroundTask == old(state.backgroundTask) && state.backgroundCompactionScheduled == old(state.backgroundCompactionScheduled)
    {
      if state.logWriter.None? {
        // RecordStarted on a missing log writer throws
        return false;
      }
      var record := WriteToLog(batches, sequence, state.memTable);
      if record.Err? {
        return false;
      }
      Commit(group, batches, sequence, lastSequence, record.value);
      return true;
    }

    /**
     * The successful end of `WriteGroup`: appends the encoded `entry` to the
     * log, applies the batches to the memtable, advances `LastSequence` and
     * completes the group's writes.
     */
    method Commit(group: seq<OutstandingWrite>, batches: seq<WriteBatch>, sequence: nat, lastSequence: nat, entry: seq<byte>)
      requires state.Valid() && lastSequence >= state.versionSet.lastSequence
      modifies state, state.memTable, state.versionSet, set w | w in group
      ensures state.Valid() && state.memTable == old(state.memTable) && state.versionSet == old(state.versionSet)
      ensures state.versionSet.current == old(state.versionSet.current)
      ensures state.versionSet.lastSequence == lastSequence
      ensures forall w :: w in group ==> w.result == TaskRanToCompletion
      ensures state.logContents == old(state.logContents) + [entry]
      ensures state.memTable.entries == old(state.memTable.entries) + GroupEntries(batches, sequence)
      ensures state.memTable.arena == old(state.memTable.arena)
      ensures state.immutableMemTable == old(state.immutableMemTable) && state.logWriter == old(state.logWriter)
      ensures state.backgroundTask == old(state.backgroundTask) && state.backgroundCompactionScheduled == old(state.backgroundCompactionScheduled)
    {
      state.logContents := state.logContents + [entry];
      ApplyAll(batches, state.memTable, sequence);
      state.versionSet.SetLastSequence(lastSequence);
      MarkCompleted(group);
    }

    /**
     * One step of `WriteAsync` for the queued write `mine`: it waits while
     * another write heads the queue, returns at once when a leader already
     * wrote it, and otherwise makes room and writes its group.
     */
    method WriteStep(mine: OutstandingWrite, openFails: bool) returns (outcome: WriteOutcome, group: seq<OutstandingWrite>)
      requires state.Valid() && mine in pendingWrites
      modifies state, state.memTable, state.versionSet, set w | w in pendingWrites, set w | w in pendingWrites :: w.batch
      ensures state.Valid()
      ensures !old(mine.Done()) && old(pendingWrites[0]) != mine ==> outcome == WriteQueued && state.Unchanged()
      ensures old(mine.Done()) ==> outcome == WriteAlreadyDone && state.Unchanged()
      ensures outcome.WriteQueued? || outcome.WriteAlreadyDone? ==> forall w :: w in pendingWrites ==> w.result == old(w.result)
      ensures outcome.WriteWritten? ==>
        && !old(mine.Done()) && old(pendingWrites[0]) == mine
        && outcome.groupSize == |group| && IsBatchGroup(group, mine, pendingWrites)
        && state.versionSet.lastSequence == old(state.versionSet.lastSequence) + |group|
        && (forall w :: w in group ==> w.result == TaskRanToCompletion)
        && |state.logContents| > 0
        && EncodeRecord(old(state.versionSet.lastSequence) + 1, AllOps(Batches(group)), state.memTable.arena) ==
             Ok(state.logContents[|state.logContents| - 1])
      ensures !outcome.WriteWritten? ==> forall w :: w in pendingWrites ==> w.result == old(w.result)
      ensures !outcome.WriteWritten? ==> state.versionSet.lastSequence == old(state.versionSet.lastSequence)
    {
      group := [];
      if !mine.Done() && pendingWrites[0] != mine {
        // awaiting the pulse of the next completed write
        return WriteQueued, group;
      }
      if mine.Done() {
        return WriteAlreadyDone, group;
      }
      outcome, group := RoomThenWrite(mine, openFails);
    }

    /**
     * The leader's part of `WriteAsync`: makes room for the write and, when
     * there is room, writes the group it heads.
     */
    method RoomThenWrite(mine: OutstandingWrite, openFails: bool) returns (outcome: WriteOutcome, group: seq<OutstandingWrite>)
      requires state.Valid() && |pendingWrites| > 0 && pendingWrites[0] == mine
      modifies state, state.memTable, state.versionSet, set w | w in pendingWrites, set w | w in pendingWrites :: w.batch
      ensures state.Valid()
      ensures !outcome.WriteQueued? && !outcome.WriteAlreadyDone?
      ensures outcome.WriteWritten? ==>
        && outcome.groupSize == |group| && IsBatchGroup(group, mine, pendingWrites)
        && state.versionSet.lastSequence == old(state.versionSet.lastSequence) + |group|
        && (forall w :: w in group ==> w.result == TaskRanToCompletion)
        && |state.logContents| > 0
        && EncodeRecord(old(state.versionSet.lastSequence) + 1, AllOps(Batches(group)), state.memTable.arena) ==
             Ok(state.logContents[|state.logContents| - 1])
      ensures !outcome.WriteWritten? ==> forall w :: w in pendingWrites ==> w.result == old(w.result)
      ensures !outcome.WriteWritten? ==> state.versionSet.lastSequence == old(state.versionSet.lastSequence)
    {
      group := [];
      var room, _ := MakeRoomForWrite(false, openFails);
      match room
      case RoomFailed => return WriteFailed, group;
      case RoomWaiting => return WriteWaiting, group;
      case RoomSpinning => return WriteSpinning, group;
      case RoomReady =>
      var ok, written, _ := WriteGroup(mine);
      group := written;
      if !ok {
        return WriteFailed, group;
      }
      return WriteWritten(|group|), group;
    }

    /**
     * Writes the memtable whose keys, in iterator order, are `keys` as a
     * level-0 table (`WriteLevel0Table`). The file number is listed in
     * `pendingOutputs` while the table is built (`building`) and taken out
     * afterwards; an empty table is not added to the edit, and a non-empty
     * one goes to the level `PickLevelForMemTableOutput` picks.
     */
    method WriteLevel0Table(keys: seq<InternalKey>, builderFileSize: PosInt, edit: VersionEdit)
      returns (meta: FileMetadata, level: nat, ghost building: seq<nat>)
      requires state.Valid()
      modifies this, state, state.versionSet, edit
      ensures state.Valid() && state.versionSet == old(state.versionSet) && state.versionSet.current == old(state.versionSet.current)
      ensures meta.fileNumber == old(state.versionSet.nextFileNumber)
      ensures state.versionSet.nextFileNumber == old(state.versionSet.nextFileNumber) + 1
      ensures building == old(pendingOutputs) + [meta.fileNumber] && pendingOutputs == RemoveFirst(building, meta.fileNumber)
      ensures multiset(pendingOutputs) == multiset(old(pendingOutputs))
      ensures meta.fileNumber !in old(pendingOutputs) ==> pendingOutputs == old(pendingOutputs)
      ensures |keys| > 0 ==>
        && meta.smallest == keys[0] && meta.largest == keys[|keys| - 1] && meta.fileSize == builderFileSize
        && edit.newFiles == old(edit.newFiles) + [(level, meta)]
        && (state.versionSet.current.OverlapInLevel(0, meta.smallest.userKey, meta.largest.userKey) ==> level == 0)
        && level <= state.cfg.maxMemCompactLevel
        && state.deletedFiles == old(state.deletedFiles)
      ensures |keys| == 0 ==>
        && meta.fileSize == 0 && level == 0 && edit.newFiles == old(edit.newFiles)
        && state.deletedFiles == old(state.deletedFiles) + [FileRef(meta.fileNumber, TableFile), FileRef(meta.fileNumber, TempFile)]
      ensures edit.logNumber == old(edit.logNumber) && edit.prevLogNumber == old(edit.prevLogNumber)
      ensures edit.nextFileNumber == old(edit.nextFileNumber) && edit.lastSequence == old(edit.lastSequence)
      ensures pendingWrites == old(pendingWrites)
      ensures state.versionSet.lastSequence == old(state.versionSet.lastSequence)
      ensures state.versionSet.logNumber == old(state.versionSet.logNumber) && state.versionSet.prevLogNumber == old(state.versionSet.prevLogNumber)
      ensures state.versionSet.manifestFileNumber == old(state.versionSet.manifestFileNumber)
      ensures state.memTable == old(state.memTable) && state.immutableMemTable == old(state.immutableMemTable)
      ensures state.logWriter == old(state.logWriter) && state.logContents == old(state.logContents) && state.logFileNumber == old(state.logFileNumber)
      ensures state.descriptorLogWriter == old(state.descriptorLogWriter) && state.shuttingDown == old(state.shuttingDown)
      ensures state.backgroundCompactionScheduled == old(state.backgroundCompactionScheduled) && state.backgroundTask == old(state.backgroundTask)
    {
      var fileNumber := state.versionSet.NewFileNumber();
      pendingOutputs := pendingOutputs + [fileNumber];
      building := pendingOutputs;
      var fed;
      meta, fed := state.BuildTable(keys, fileNumber, builderFileSize);
      pendingOutputs := RemoveFirst(pendingOutputs, fileNumber);
      RemoveAppended(old(pendingOutputs), fileNumber);
      level := 0;
      if meta.fileSize > 0 {
        level := state.versionSet.current.PickLevelForMemTableOutput(meta.smallest.userKey, meta.largest.userKey);
        edit.newFiles := edit.newFiles + [(level, meta)];
      }
    }

    /**
     * Deletes the obsolete files of the directory `listing`
     * (`DeleteObsoleteFiles`). The live list is `pendingOutputs` itself,
     * so the live files of all versions (`liveFiles`) stay appended to it.
     */
    method DeleteObsoleteFiles(listing: seq<FileRef>, liveFiles: seq<nat>)
      modifies this, state
      ensures pendingOutputs == old(pendingOutputs) + liveFiles
      ensures state.deletedFiles == old(state.deletedFiles) +
        Obsolete(listing, pendingOutputs, state.versionSet.logNumber, state.versionSet.prevLogNumber, state.versionSet.manifestFileNumber)
      ensures pendingWrites == old(pendingWrites)
      ensures state.memTable == old(state.memTable) && state.immutableMemTable == old(state.immutableMemTable)
      ensures state.logWriter == old(state.logWriter) && state.logContents == old(state.logContents) && state.logFileNumber == old(state.logFileNumber)
      ensures state.descriptorLogWriter == old(state.descriptorLogWriter) && state.shuttingDown == old(state.shuttingDown)
      ensures state.backgroundCompactionScheduled == old(state.backgroundCompactionScheduled) && state.backgroundTask == old(state.backgroundTask)
      ensures state.versionSet == old(state.versionSet)
    {
      pendingOutputs := pendingOutputs + liveFiles;
      var live := pendingOutputs;
      var logNumber, prevLogNumber, manifest := state.versionSet.logNumber, state.versionSet.prevLogNumber, state.versionSet.manifestFileNumber;
      var i := 0;
      while i < |listing|
        invariant 0 <= i <= |listing|
        invariant state.deletedFiles == old(state.deletedFiles) + Obsolete(listing[..i], live, logNumber, prevLogNumber, manifest)
        invariant pendingOutputs == live && state.OnlyDeletionsChanged() && pendingWrites == old(pendingWrites)
      {
        assert listing[..i + 1][..i] == listing[..i];
        if !Keep(listing[i], live, logNumber, prevLogNumber, manifest) {
          state.deletedFiles := state.deletedFiles + [listing[i]];
        }
        i := i + 1;
      }
      assert listing[..i] == listing;
    }

    /**
     * The memtable compaction (`CompactMemTable`): flushes the immutable
     * memtable, whose keys in iterator order are `keys`, to a level-0
     * table, logs an edit naming the current log with no previous log, and
     * when the new version is installed drops the immutable memtable and
     * deletes the obsolete files of `listing`. The builder's new levels are
     * `built`; `ioFails` says whether the descriptor write fails.
     */
    method CompactMemTable(keys: seq<InternalKey>, builderFileSize: PosInt, built: seq<seq<FileMetadata>>, ioFails: bool,
                           listing: seq<FileRef>, liveFiles: seq<nat>)
      returns (status: CompactStatus, meta: FileMetadata, level: nat)
      requires state.Valid() && |built| == state.cfg.numberOfLevels
      modifies this, state, state.versionSet
      ensures state.Valid() && state.versionSet == old(state.versionSet)
      ensures old(state.immutableMemTable) == null ==>
        status == NoImmutableMemTable && state.Unchanged() && pendingOutputs == old(pendingOutputs)
      ensures old(state.immutableMemTable) != null ==>
        && status != NoImmutableMemTable
        && meta.fileNumber == old(state.versionSet.nextFileNumber)
        && state.versionSet.nextFileNumber == old(state.versionSet.nextFileNumber) + 1
        && (|keys| > 0 ==> meta.smallest == keys[0] && meta.largest == keys[|keys| - 1] && meta.fileSize == builderFileSize
                           && level <= state.cfg.maxMemCompactLevel)
        && (|keys| == 0 ==> meta.fileSize == 0 && level == 0)
        && (status == CompactOk <==>
              && old(state.versionSet.logNumber) <= old(state.logFileNumber) < old(state.versionSet.nextFileNumber) + 1
              && old(state.descriptorLogWriter).Some? && !ioFails)
      ensures status == CompactOk ==>
        && state.immutableMemTable == null && state.versionSet.current.files == built
        && state.versionSet.logNumber == old(state.logFileNumber) && state.versionSet.prevLogNumber == 0
        && multiset(pendingOutputs) == multiset(old(pendingOutputs) + liveFiles)
      ensures status == CompactNotInstalled ==>
        && state.immutableMemTable == old(state.immutableMemTable) && state.versionSet.current == old(state.versionSet.current)
        && multiset(pendingOutputs) == multiset(old(pendingOutputs))
      ensures state.memTable == old(state.memTable) && state.logWriter == old(state.logWriter)
      ensures state.logContents == old(state.logContents) && state.logFileNumber == old(state.logFileNumber)
      ensures state.versionSet.lastSequence == old(state.versionSet.lastSequence)
      ensures state.backgroundCompactionScheduled == old(state.backgroundCompactionScheduled) && state.backgroundTask == old(state.backgroundTask)
      ensures state.shuttingDown == old(state.shuttingDown) && pendingWrites == old(pendingWrites)
    {
      meta, level := FileMetadata(0, 0, EmptyInternalKey, EmptyInternalKey, 0), 0;
      if state.immutableMemTable == null {
        // InvalidOperationException("ImmutableMemTable cannot be null.")
        return NoImmutableMemTable, meta, level;
      }
      var edit := new VersionEdit();
      ghost var building;
      meta, level, building := WriteLevel0Table(keys, builderFileSize, edit);
      var installed := InstallFlush(edit, built, ioFails, listing, liveFiles);
      status := if installed then CompactOk else CompactNotInstalled;
    }

    /**
     * The second half of `CompactMemTable`: sets the edit's previous log to
     * 0 and its log to the current log, applies it, and on success drops
     * the immutable memtable and deletes the obsolete files.
     */
    method InstallFlush(edit: VersionEdit, built: seq<seq<FileMetadata>>, ioFails: bool, listing: seq<FileRef>, liveFiles: seq<nat>)
      returns (installed: bool)
      requires state.Valid() && |built| == state.cfg.numberOfLevels
      modifies this, state, state.versionSet, edit
      ensures state.Valid() && state.versionSet == old(state.versionSet)
      ensures installed <==>
        && old(state.versionSet.logNumber) <= old(state.logFileNumber) < old(state.versionSet.nextFileNumber)
        && old(state.descriptorLogWriter).Some? && !ioFails
      ensures installed ==>
        && state.immutableMemTable == null && state.versionSet.current.files == built
        && state.versionSet.logNumber == old(state.logFileNumber) && state.versionSet.prevLogNumber == 0
        && pendingOutputs == old(pendingOutputs) + liveFiles
        && state.deletedFiles == old(state.deletedFiles) +
             Obsolete(listing, pendingOutputs, old(state.logFileNumber), 0, old(state.versionSet.manifestFileNumber))
      ensures !installed ==>
        && state.immutableMemTable == old(state.immutableMemTable) && state.versionSet.current == old(state.versionSet.current)
        && pendingOutputs == old(pendingOutputs)
      ensures state.memTable == old(state.memTable) && state.logWriter == old(state.logWriter)
      ensures state.logContents == old(state.logContents) && state.logFileNumber == old(state.logFileNumber)
      ensures state.versionSet.lastSequence == old(state.versionSet.lastSequence)
      ensures state.versionSet.nextFileNumber == old(state.versionSet.nextFileNumber)
      ensures state.backgroundCompactionScheduled == old(state.backgroundCompactionScheduled) && state.backgroundTask == old(state.backgroundTask)
      ensures state.shuttingDown == old(state.shuttingDown) && pendingWrites == old(pendingWrites)
    {
      edit.prevLogNumber := Some(0);
      edit.logNumber := Some(state.logFileNumber);
      installed := state.LogAndApply(edit, built, ioFails);
      if installed {
        state.immutableMemTable := null;
        DeleteObsoleteFiles(listing, liveFiles);
      }
    }

    /**
     * One run of the background compaction (`RunCompaction` with
     * `BackgroundCompaction`): compacts the immutable memtable if there is
     * one, then tries to schedule again. The scheduled flag is never
     * cleared, so that attempt changes nothing and the flag stays set; the
     * background task then counts as completed.
     */
    method RunCompaction(keys: seq<InternalKey>, builderFileSize: PosInt, built: seq<seq<FileMetadata>>, ioFails: bool,
                         listing: seq<FileRef>, liveFiles: seq<nat>)
      returns (status: CompactStatus)
      requires state.Valid() && |built| == state.cfg.numberOfLevels && state.backgroundCompactionScheduled
      modifies this, state, state.versionSet
      ensures state.Valid() && state.versionSet == old(state.versionSet)
      ensures status != NoImmutableMemTable
      ensures old(state.immutableMemTable) == null ==>
        && status == CompactOk && state.immutableMemTable == null
        && state.versionSet.current == old(state.versionSet.current)
        && state.versionSet.nextFileNumber == old(state.versionSet.nextFileNumber)
        && state.deletedFiles == old(state.deletedFiles) && pendingOutputs == old(pendingOutputs)
      ensures old(state.immutableMemTable) != null ==>
        (status == CompactOk <==>
           && old(state.versionSet.logNumber) <= old(state.logFileNumber) < old(state.versionSet.nextFileNumber) + 1
           && old(state.descriptorLogWriter).Some? && !ioFails)
      ensures status == CompactOk ==> state.immutableMemTable == null
      ensures status == CompactNotInstalled ==> state.immutableMemTable == old(state.immutableMemTable)
      ensures state.backgroundCompactionScheduled && state.backgroundTask == TaskRanToCompletion
      ensures state.memTable == old(state.memTable) && state.logWriter == old(state.logWriter)
      ensures state.logContents == old(state.logContents) && state.logFileNumber == old(state.logFileNumber)
      ensures state.versionSet.lastSequence == old(state.versionSet.lastSequence)
      ensures state.shuttingDown == old(state.shuttingDown) && pendingWrites == old(pendingWrites)
    {
      if state.immutableMemTable != null {
        var meta, level;
        status, meta, level := CompactMemTable(keys, builderFileSize, built, ioFails, listing, liveFiles);
      } else {
        status := CompactOk;
      }
      // a failed compaction sleeps before the next attempt
      MaybeScheduleCompaction();
      state.backgroundTask := TaskRanToCompletion;
    }
  }
}
