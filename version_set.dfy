/**
 * The version set: the current version and the engine-wide counters
 * (last sequence, log numbers, file numbers).
 */
module VersionSets {
  import opened Keys
  import opened StorageConfig
  import opened Versions

  class VersionSet {
    const cfg: Config
    var lastSequence: nat
    /** The log file number being compacted, or 0 if none. */
    var prevLogNumber: nat
    var logNumber: nat
    var nextFileNumber: nat
    var manifestFileNumber: nat
    var current: Version

    ghost predicate Valid()
      reads this, current
    {
      cfg.Valid() && current.Valid() && current.cfg == cfg
    }

    /** A version set whose current version is fresh and whose last sequence is 0. */
    constructor (cfg: Config)
      requires cfg.Valid()
      ensures Valid() && this.cfg == cfg && fresh(current)
      ensures lastSequence == 0 && prevLogNumber == 0 && logNumber == 0
      ensures nextFileNumber == 2 && manifestFileNumber == 0
      ensures forall l :: 0 <= l < |current.files| ==> current.files[l] == []
      ensures current.compactionScore == Unscored && current.fileToCompact.None?
      ensures !NeedsCompaction()
    {
      this.cfg := cfg;
      lastSequence := 0;
      prevLogNumber := 0;
      logNumber := 0;
      nextFileNumber := 2;
      manifestFileNumber := 0;
      current := new Version(cfg);
    }

    /** The `LastSequence` setter: the sequence number never moves backwards. */
    method SetLastSequence(value: nat)
      requires value >= lastSequence
      modifies this
      ensures lastSequence == value && old(lastSequence) <= lastSequence
      ensures prevLogNumber == old(prevLogNumber) && logNumber == old(logNumber)
      ensures nextFileNumber == old(nextFileNumber) && manifestFileNumber == old(manifestFileNumber)
      ensures current == old(current)
    {
      lastSequence := value;
    }

    /** The current version's score is at least 1, or it has a seek-nominated file. */
    predicate NeedsCompaction()
      reads this, current
    {
      AtLeastOne(current.compactionScore) || current.fileToCompact.Some?
    }

    /** The number of files at `level` of the current version. */
    function GetNumberOfFilesAtLevel(level: nat): (r: nat)
      reads this, current
      requires Valid() && level < cfg.numberOfLevels
      ensures r == |current.files[level]|
    {
      |current.files[level]|
    }

    /** Hands out the next file number. */
    method NewFileNumber() returns (n: nat)
      modifies this
      ensures n == old(nextFileNumber) && nextFileNumber == n + 1
      ensures lastSequence == old(lastSequence) && prevLogNumber == old(prevLogNumber) && logNumber == old(logNumber)
      ensures manifestFileNumber == old(manifestFileNumber) && current == old(current)
    {
      n := nextFileNumber;
      nextFileNumber := nextFileNumber + 1;
    }

    /** Takes back `n` if it was the number handed out last. */
    method ReuseFileNumber(n: nat)
      modifies this
      ensures nextFileNumber == (if old(nextFileNumber) == n + 1 then n else old(nextFileNumber))
      ensures lastSequence == old(lastSequence) && prevLogNumber == old(prevLogNumber) && logNumber == old(logNumber)
      ensures manifestFileNumber == old(manifestFileNumber) && current == old(current)
    {
      if nextFileNumber == n + 1 {
        nextFileNumber := n;
      }
    }
  }

  /**
   * For a version that has been finalized, compaction is needed exactly when
   * some scored level is over its budget or a file was nominated by seeks.
   */
  lemma NeedsCompactionAfterFinalize(vs: VersionSet)
    requires vs.Valid()
    requires (vs.current.compactionLevel, vs.current.compactionScore) == BestUpTo(vs.cfg, vs.current.files, vs.cfg.numberOfLevels - 1)
    ensures vs.NeedsCompaction() <==>
      (exists l :: 0 <= l < vs.cfg.numberOfLevels - 1 && AtLeastOne(LevelScore(vs.cfg, vs.current.files, l)))
      || vs.current.fileToCompact.Some?
  {
    BestAtLeastOneIff(vs.cfg, vs.current.files, vs.cfg.numberOfLevels - 1);
  }

  /**
   * Level 0 of the current version holding at least the trigger's count of
   * files makes a finalized version need compaction.
   */
  lemma FullLevel0NeedsCompaction(vs: VersionSet)
    requires vs.Valid()
    requires (vs.current.compactionLevel, vs.current.compactionScore) == BestUpTo(vs.cfg, vs.current.files, vs.cfg.numberOfLevels - 1)
    requires vs.GetNumberOfFilesAtLevel(0) >= vs.cfg.level0CompactionTrigger
    ensures vs.NeedsCompaction()
  {
    NeedsCompactionAfterFinalize(vs);
    assert AtLeastOne(LevelScore(vs.cfg, vs.current.files, 0));
  }
}
