/**
 * The engine's configuration constants (the static `Config` class and the
 * `StorageOptions` values the core reads). Their values are not fixed by the
 * model: every component takes a `Config` and relies only on `Valid()`.
 */
module StorageConfig {

  datatype Config = Config(
    numberOfLevels: nat,
    level0CompactionTrigger: nat,
    maxMemCompactLevel: nat,
    maxGrandParentOverlapBytes: nat,
    slowdownWritesTrigger: nat,
    stopWritesTrigger: nat,
    writeBatchSize: nat)
  {
    /** The assumptions the compaction policy depends on. */
    predicate Valid() {
      && numberOfLevels >= 2
      && level0CompactionTrigger > 0
      && maxMemCompactLevel + 1 < numberOfLevels
    }
  }
}
