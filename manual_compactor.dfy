/**
 * The manual compaction driver: the in-progress/done guard around one
 * requested range at one level, the advance of the range's start past each
 * partial compaction, and the choice of levels a range compaction visits.
 *
 * The compactions the version set picks for the range (`CompactRange`) are
 * given as the sequence `picks`, one per round, since the picking and the
 * compaction work itself are not part of this model.
 */
module ManualCompactors {
  import opened Wrappers
  import opened Keys
  import opened Versions
  import opened VersionSets
  import opened StorageStates

  /** A compaction picked for the range: its input files at the compaction's level. */
  datatype Compaction = Compaction(inputs: seq<FileMetadata>)

  /** How an attempt at `CompactAsync` ends. */
  datatype ManualOutcome =
    | ManualCompacted         // the range is compacted
    | ManualAlreadyInProgress // InvalidOperationException, before the guarded block
    | ManualShuttingDown      // InvalidOperationException inside the guarded block
    | ManualWaiting           // still awaiting a background compaction or the next round
    | ManualNoInputs          // a picked compaction without inputs: reading its last input throws

  /** The seek key `CompactAsync` builds for a range bound: the user key, the largest sequence, the seek type. */
  function SeekKey(userKey: Key): (r: InternalKey)
    ensures r.userKey == userKey && r.sequence == MaxSequenceNumber && r.itemType == ValueForSeek
    ensures forall s: nat, t :: s < MaxSequenceNumber ==> CompareInternal(r, InternalKey(userKey, s, t)) < 0
  {
    InternalKey(userKey, MaxSequenceNumber, ValueForSeek)
  }

  /** The round at which the run of picks stops: the first pick that is none or has no inputs, or |picks|. */
  function StopRound(picks: seq<Option<Compaction>>): (r: nat)
    ensures r <= |picks|
    ensures forall i :: 0 <= i < r ==> picks[i].Some? && |picks[i].value.inputs| > 0
    ensures r < |picks| ==> picks[r].None? || |picks[r].value.inputs| == 0
  {
    if picks == [] then 0
    else if picks[0].None? || |picks[0].value.inputs| == 0 then 0
    else 1 + StopRound(picks[1..])
  }

  /** The largest key of a compaction's last input. */
  function LastLargest(c: Compaction): InternalKey
    requires |c.inputs| > 0
  {
    c.inputs[|c.inputs| - 1].largest
  }

  /** Where the range starts after `n` partial compactions: past the last input of the last one. */
  function AdvancedBegin(initial: InternalKey, picks: seq<Option<Compaction>>, n: nat): InternalKey
    requires n <= StopRound(picks)
  {
    if n == 0 then initial else LastLargest(picks[n - 1].value)
  }

  /**
   * The highest level in [1, upTo) whose files overlap [begin, end] in
   * `version`, or 1 if none does.
   */
  function MaxLevelWithFiles(version: Version, beginKey: Key, endKey: Key, upTo: nat): (r: nat)
    reads version
    requires version.Valid() && upTo <= |version.files|
    ensures r == 1 || (1 <= r < upTo && version.OverlapInLevel(r, beginKey, endKey))
    ensures forall l :: r < l < upTo ==> !version.OverlapInLevel(l, beginKey, endKey)
  {
    if upTo <= 1 then 1
    else
      var top: nat := upTo - 1;
      var below := MaxLevelWithFiles(version, beginKey, endKey, top);
      if version.OverlapInLevel(top, beginKey, endKey) then top else below
  }

  /** As written, no level above 0 ever overlaps, so a range compaction only visits level 0. */
  lemma {:induction false} MaxLevelWithFilesIsOne(version: Version, beginKey: Key, endKey: Key, upTo: nat)
    requires version.Valid() && upTo <= |version.files|
    ensures MaxLevelWithFiles(version, beginKey, endKey, upTo) == 1
  {
    if upTo > 1 {
      assert !version.OverlapInLevel(upTo - 1, beginKey, endKey);
      MaxLevelWithFilesIsOne(version, beginKey, endKey, upTo - 1);
    }
  }

  class ManualCompactor {
    const state: StorageState
    var level: nat
    var done: bool
    /** The start of the range left to compact; none means the beginning of the key range. */
    var begin: Option<InternalKey>
    /** The end of the range; none means the end of the key range. */
    var end: Option<InternalKey>
    var inProgress: bool
    /** The compaction picked last. */
    var compaction: Option<Compaction>

    /** A compactor at level 0 over the whole key range, idle. */
    constructor (state: StorageState)
      ensures this.state == state && level == 0 && !done && !inProgress
      ensures begin.None? && end.None? && compaction.None?
    {
      this.state := state;
      level := 0;
      done := false;
      begin := None;
      end := None;
      inProgress := false;
      compaction := None;
    }

    /**
     * `CompactionToProcess`: takes the compaction the version set picks for
     * the range, and marks the manual compaction done exactly when there is none.
     */
    method CompactionToProcess(pick: Option<Compaction>) returns (c: Option<Compaction>)
      modifies this
      ensures c == pick && compaction == pick && (done <==> pick.None?)
      ensures level == old(level) && begin == old(begin) && end == old(end) && inProgress == old(inProgress)
    {
      compaction := pick;
      done := compaction.None?;
      c := compaction;
    }

    /**
     * `CompactAsync(lvl, beginKey, endKey)`, with `picks` the compactions
     * picked round after round. A compaction already in progress is an
     * error that changes nothing. Otherwise the request is recorded, and
     * every ending other than a wait leaves the compactor done and no
     * longer in progress (the `finally` block). Shutting down is an error;
     * a scheduled background compaction is awaited. Each round with a
     * compaction moves the start of the range to the largest key of its
     * last input; a round without one completes the range.
     */
    method CompactAsync(lvl: nat, beginKey: Key, endKey: Key, picks: seq<Option<Compaction>>) returns (outcome: ManualOutcome)
      modifies this
      ensures old(inProgress) ==>
        && outcome == ManualAlreadyInProgress && inProgress && done == old(done)
        && level == old(level) && begin == old(begin) && end == old(end) && compaction == old(compaction)
      ensures !old(inProgress) ==> level == lvl && end == Some(SeekKey(endKey))
      ensures !old(inProgress) && state.shuttingDown ==>
        outcome == ManualShuttingDown && begin == Some(SeekKey(beginKey))
      ensures !old(inProgress) && !state.shuttingDown && state.backgroundCompactionScheduled ==>
        outcome == ManualWaiting && begin == Some(SeekKey(beginKey))
      ensures !old(inProgress) && !state.shuttingDown && !state.backgroundCompactionScheduled ==>
        var n := StopRound(picks);
        && begin == Some(AdvancedBegin(SeekKey(beginKey), picks, n))
        && outcome == (if n == |picks| then ManualWaiting else if picks[n].None? then ManualCompacted else ManualNoInputs)
        && (outcome == ManualCompacted ==> compaction.None?)
      ensures outcome == ManualWaiting ==> inProgress && !done
      ensures outcome != ManualWaiting && outcome != ManualAlreadyInProgress ==> done && !inProgress
    {
      if inProgress {
        return ManualAlreadyInProgress;
      }
      inProgress := true;
      done := false;
      level := lvl;
      begin := Some(SeekKey(beginKey));
      end := Some(SeekKey(endKey));
      if state.shuttingDown {
        done, inProgress := true, false;
        return ManualShuttingDown;
      }
      if state.backgroundCompactionScheduled {
        // Task.Delay(100) and try again: the flag is never cleared
        return ManualWaiting;
      }
      var i := 0;
      while !done
        invariant i <= StopRound(picks) && inProgress && level == lvl && end == Some(SeekKey(endKey))
        invariant begin == Some(AdvancedBegin(SeekKey(beginKey), picks, i))
        invariant done ==> i < |picks| && picks[i].None? && compaction.None?
        decreases |picks| - i, !done
      {
        if i == |picks| {
          // awaiting RunCompactionAsync
          return ManualWaiting;
        }
        var c := CompactionToProcess(picks[i]);
        if c.None? {
          continue;
        }
        if |c.value.inputs| == 0 {
          done, inProgress := true, false;
          return ManualNoInputs;
        }
        begin := Some(LastLargest(c.value));
        i := i + 1;
      }
      done, inProgress := true, false;
      return ManualCompacted;
    }

    /**
     * `CompactRangeAsync(beginKey, endKey)`: finds the highest level above
     * 0 whose files overlap the range (1 if none does), then compacts the
     * levels below it in ascending order, stopping at the first level that
     * does not complete. `picksPerLevel` gives each level's picks.
     */
    method CompactRangeAsync(beginKey: Key, endKey: Key, picksPerLevel: seq<seq<Option<Compaction>>>)
      returns (maxLevelWithFiles: nat, compacted: nat, outcome: ManualOutcome)
      requires state.Valid()
      modifies this
      ensures maxLevelWithFiles == MaxLevelWithFiles(state.versionSet.current, beginKey, endKey, state.cfg.numberOfLevels)
      ensures maxLevelWithFiles == 1
      ensures compacted <= maxLevelWithFiles
      ensures compacted < maxLevelWithFiles ==> outcome != ManualCompacted
      ensures compacted == maxLevelWithFiles ==> outcome == ManualCompacted
    {
      var current := state.versionSet.current;
      maxLevelWithFiles := 1;
      var l: nat := 1;
      while l < state.cfg.numberOfLevels
        invariant 1 <= l <= state.cfg.numberOfLevels
        invariant maxLevelWithFiles == MaxLevelWithFiles(current, beginKey, endKey, l)
      {
        if current.OverlapInLevel(l, beginKey, endKey) {
          maxLevelWithFiles := l;
        }
        l := l + 1;
      }
      MaxLevelWithFilesIsOne(current, beginKey, endKey, state.cfg.numberOfLevels);
      compacted := 0;
      outcome := ManualCompacted;
      while compacted < maxLevelWithFiles
        invariant compacted <= maxLevelWithFiles && outcome == ManualCompacted
      {
        var picks := if compacted < |picksPerLevel| then picksPerLevel[compacted] else [];
        outcome := CompactAsync(compacted, beginKey, endKey, picks);
        if outcome != ManualCompacted {
          return;
        }
        compacted := compacted + 1;
      }
    }
  }
}
