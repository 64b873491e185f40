/**
 * One version of the leveled file metadata: per-level file lists, the
 * precomputed compaction choice, and the seek-charged file nominated for
 * compaction.
 */
module Versions {
  import opened Wrappers
  import opened Keys
  import opened StorageConfig

  /** Metadata of one sorted-table file. */
  datatype FileMetadata = FileMetadata(
    fileNumber: nat,
    fileSize: nat,
    smallest: InternalKey,
    largest: InternalKey,
    allowedSeeks: int)

  // ---------------------------------------------------------------------
  // Compaction scores (doubles in the source) as exact rationals.

  type PosInt = x: int | x > 0 witness 1

  /** The rational num/den. */
  datatype Score = Score(num: int, den: PosInt)

  /** The initial score -1. */
  const Unscored: Score := Score(-1, 1)

  /** a > b, compared by cross-multiplication. */
  predicate Greater(a: Score, b: Score) {
    a.num * b.den > b.num * a.den
  }

  /** s >= 1 */
  predicate AtLeastOne(s: Score) {
    s.num >= s.den
  }

  lemma MulStrict(x: int, y: int, p: int)
    requires p > 0 && x < y
    ensures x * p < y * p
  {
  }

  lemma MulWeak(x: int, y: int, p: int)
    requires p > 0 && x <= y
    ensures x * p <= y * p
  {
  }

  /** If x <= s < t then t > x. */
  lemma GreaterAfterNotGreater(x: Score, s: Score, t: Score)
    requires !Greater(x, s) && Greater(t, s)
    ensures Greater(t, x)
  {
    MulWeak(x.num * s.den, s.num * x.den, t.den);
    MulStrict(s.num * t.den, t.num * s.den, x.den);
    assert x.num * s.den * t.den <= s.num * x.den * t.den;
    assert s.num * t.den * x.den < t.num * s.den * x.den;
    assert s.den * (x.num * t.den) < s.den * (t.num * x.den);
    if t.num * x.den <= x.num * t.den {
      MulWeak(t.num * x.den, x.num * t.den, s.den);
      assert false;
    }
  }

  /** A score above a non-negative score is non-negative. */
  lemma GreaterKeepsNonNegative(a: Score, b: Score)
    requires Greater(a, b) && b.num >= 0
    ensures a.num >= 0
  {
    if a.num < 0 {
      MulStrict(a.num, 0, b.den);
      MulWeak(0, b.num, a.den);
      assert false;
    }
  }

  /** If x >= 1 and x <= s, then s >= 1. */
  lemma AtLeastOneBelow(x: Score, s: Score)
    requires AtLeastOne(x) && !Greater(x, s)
    ensures AtLeastOne(s)
  {
    MulWeak(x.den, x.num, s.den);
    if s.num < s.den {
      MulStrict(s.num, s.den, x.den);
      assert false;
    }
  }

  // ---------------------------------------------------------------------
  // Per-level budgets and scores.

  /** The byte budget of a level: 10 MiB for levels 0 and 1, ten times more per level after. */
  function MaxBytesForLevel(level: int): (r: PosInt)
    ensures r >= 10 * 1048576
    decreases level
  {
    if level <= 1 then 10 * 1048576 else 10 * MaxBytesForLevel(level - 1)
  }

  function Pow10(n: nat): (r: PosInt) {
    if n == 0 then 1 else 10 * Pow10(n - 1)
  }

  lemma {:induction false} MaxBytesForLevelIsPower(level: int)
    ensures MaxBytesForLevel(level) == 10 * 1048576 * Pow10(if level <= 1 then 0 else level - 1)
    decreases level
  {
    if level > 1 {
      MaxBytesForLevelIsPower(level - 1);
    }
  }

  /** From level 1 on, the budget grows strictly with the level. */
  lemma {:induction false} MaxBytesForLevelIncreasing(l1: int, l2: int)
    requires 1 <= l1 < l2
    ensures MaxBytesForLevel(l1) < MaxBytesForLevel(l2)
    decreases l2
  {
    if l1 < l2 - 1 {
      MaxBytesForLevelIncreasing(l1, l2 - 1);
    }
  }

  /** The total size of a list of files (the LINQ `Sum` over `FileSize`). */
  function SumFileSizes(fs: seq<FileMetadata>): nat {
    if fs == [] then 0 else SumFileSizes(fs[..|fs| - 1]) + fs[|fs| - 1].fileSize
  }

  /** The score of one level: file count over the trigger for level 0, bytes over the budget otherwise. */
  function LevelScore(cfg: Config, files: seq<seq<FileMetadata>>, level: nat): Score
    requires cfg.Valid() && level < |files|
  {
    if level == 0 then Score(|files[0]|, cfg.level0CompactionTrigger)
    else Score(SumFileSizes(files[level]), MaxBytesForLevel(level))
  }

  /** The (level, score) the `Finalize` loop holds after scoring levels 0 .. n-1. */
  function BestUpTo(cfg: Config, files: seq<seq<FileMetadata>>, n: nat): (int, Score)
    requires cfg.Valid() && n <= |files|
  {
    if n == 0 then (-1, Unscored)
    else
      var best := BestUpTo(cfg, files, n - 1);
      var score := LevelScore(cfg, files, n - 1);
      if Greater(score, best.1) then (n - 1, score) else best
  }

  /**
   * After scoring levels 0 .. n-1 (n >= 1) the chosen level lies among them,
   * its score is that level's, non-negative, not exceeded by any scored
   * level, and strictly above every lower level's score.
   */
  lemma {:induction false} BestUpToIsLowestMaximum(cfg: Config, files: seq<seq<FileMetadata>>, n: nat)
    requires cfg.Valid() && 1 <= n <= |files|
    ensures 0 <= BestUpTo(cfg, files, n).0 < n
    ensures BestUpTo(cfg, files, n).1 == LevelScore(cfg, files, BestUpTo(cfg, files, n).0)
    ensures BestUpTo(cfg, files, n).1.num >= 0
    ensures forall j :: 0 <= j < n ==> !Greater(LevelScore(cfg, files, j), BestUpTo(cfg, files, n).1)
    ensures forall j :: 0 <= j < BestUpTo(cfg, files, n).0 ==> Greater(BestUpTo(cfg, files, n).1, LevelScore(cfg, files, j))
  {
    var score := LevelScore(cfg, files, n - 1);
    if n == 1 {
      assert Greater(score, Unscored);
    } else {
      BestUpToIsLowestMaximum(cfg, files, n - 1);
      var best := BestUpTo(cfg, files, n - 1);
      if Greater(score, best.1) {
        GreaterKeepsNonNegative(score, best.1);
        forall j | 0 <= j < n - 1
          ensures Greater(score, LevelScore(cfg, files, j))
        {
          GreaterAfterNotGreater(LevelScore(cfg, files, j), best.1, score);
        }
      }
    }
  }

  /**
   * Compaction is due (score >= 1) iff some scored level is over its
   * budget.
   */
  lemma BestAtLeastOneIff(cfg: Config, files: seq<seq<FileMetadata>>, n: nat)
    requires cfg.Valid() && 1 <= n <= |files|
    ensures AtLeastOne(BestUpTo(cfg, files, n).1) <==> exists j :: 0 <= j < n && AtLeastOne(LevelScore(cfg, files, j))
  {
    BestUpToIsLowestMaximum(cfg, files, n);
    var best := BestUpTo(cfg, files, n);
    if j :| 0 <= j < n && AtLeastOne(LevelScore(cfg, files, j)) {
      AtLeastOneBelow(LevelScore(cfg, files, j), best.1);
    }
  }

  /** A level-0 list with at least the trigger's count of files scores >= 1; an empty level scores 0. */
  lemma LevelScoreExamples(cfg: Config, files: seq<seq<FileMetadata>>, level: nat)
    requires cfg.Valid() && level < |files|
    ensures level == 0 && |files[0]| >= cfg.level0CompactionTrigger ==> AtLeastOne(LevelScore(cfg, files, 0))
    ensures files[level] == [] ==> LevelScore(cfg, files, level).num == 0
  {
  }

  // ---------------------------------------------------------------------
  // Key-range predicates over files (user-key comparisons).

  /** `key` lies after the largest key of `file`. */
  function AfterFile(key: Key, file: FileMetadata): bool {
    Compare(key, file.largest.userKey) > 0
  }

  /** `key` lies before the smallest key of `file`. */
  function BeforeFile(key: Key, file: FileMetadata): bool {
    Compare(key, file.smallest.userKey) < 0
  }

  /** Some file of `files` is neither entirely before nor entirely after [smallest, largest]. */
  function AnyFileOverlaps(files: seq<FileMetadata>, smallest: Key, largest: Key): (r: bool)
    ensures r <==> exists i :: 0 <= i < |files| && !AfterFile(smallest, files[i]) && !BeforeFile(largest, files[i])
  {
    if files == [] then false
    else if !AfterFile(smallest, files[0]) && !BeforeFile(largest, files[0]) then true
    else
      var r := AnyFileOverlaps(files[1..], smallest, largest);
      assert forall i :: 1 <= i < |files| ==> files[i] == files[1..][i - 1];
      r
  }

  /**
   * The overlap test as written: only the overlapping-files case is
   * implemented; for the disjoint, sorted lists of levels > 0 it answers
   * false.
   */
  function SomeFileOverlapsRange(disjointSortedFiles: bool, files: seq<FileMetadata>, smallest: Key, largest: Key): (r: bool)
    ensures disjointSortedFiles ==> !r
    ensures !disjointSortedFiles ==>
      (r <==> exists i :: 0 <= i < |files| && !AfterFile(smallest, files[i]) && !BeforeFile(largest, files[i]))
  {
    if !disjointSortedFiles then AnyFileOverlaps(files, smallest, largest) else false
  }

  /** The file shares at least one user key with [b, e]. */
  predicate Intersects(f: FileMetadata, b: Key, e: Key) {
    !(Compare(f.largest.userKey, b) < 0) && !(Compare(f.smallest.userKey, e) > 0)
  }

  /** The file's key range lies inside [b, e]. */
  predicate Within(f: FileMetadata, b: Key, e: Key) {
    !(Compare(f.smallest.userKey, b) < 0) && !(Compare(f.largest.userKey, e) > 0)
  }

  /** The files of `fs` that intersect [b, e], in list order. */
  function Overlapping(fs: seq<FileMetadata>, b: Key, e: Key): seq<FileMetadata> {
    if fs == [] then []
    else Overlapping(fs[..|fs| - 1], b, e) + (if Intersects(fs[|fs| - 1], b, e) then [fs[|fs| - 1]] else [])
  }

  lemma {:induction false} OverlappingMembers(fs: seq<FileMetadata>, b: Key, e: Key)
    ensures forall f :: f in Overlapping(fs, b, e) <==> f in fs && Intersects(f, b, e)
  {
    if fs != [] {
      OverlappingMembers(fs[..|fs| - 1], b, e);
      assert fs == fs[..|fs| - 1] + [fs[|fs| - 1]];
    }
  }

  /** Number of files whose smallest user key is below `b`. */
  function CountBelow(fs: seq<FileMetadata>, b: Key): nat {
    if fs == [] then 0 else (if Compare(fs[0].smallest.userKey, b) < 0 then 1 else 0) + CountBelow(fs[1..], b)
  }

  /** Number of files whose largest user key is above `e`. */
  function CountAbove(fs: seq<FileMetadata>, e: Key): nat {
    if fs == [] then 0 else (if Compare(fs[0].largest.userKey, e) > 0 then 1 else 0) + CountAbove(fs[1..], e)
  }

  lemma {:induction false} CountBelowMonotone(fs: seq<FileMetadata>, x: Key, b: Key)
    requires Compare(x, b) <= 0
    ensures CountBelow(fs, x) <= CountBelow(fs, b)
  {
    if fs != [] {
      CountBelowMonotone(fs[1..], x, b);
      if Compare(fs[0].smallest.userKey, x) < 0 {
        CompareTransitive(fs[0].smallest.userKey, x, b);
      }
    }
  }

  /** Moving the lower bound down to a file's smallest key removes that file from the count. */
  lemma {:induction false} CountBelowShrinks(fs: seq<FileMetadata>, j: nat, b: Key)
    requires j < |fs| && Compare(fs[j].smallest.userKey, b) < 0
    ensures CountBelow(fs, fs[j].smallest.userKey) < CountBelow(fs, b)
  {
    var x := fs[j].smallest.userKey;
    if j == 0 {
      CountBelowMonotone(fs[1..], x, b);
    } else {
      assert fs[1..][j - 1] == fs[j];
      CountBelowShrinks(fs[1..], j - 1, b);
      if Compare(fs[0].smallest.userKey, x) < 0 {
        CompareTransitive(fs[0].smallest.userKey, x, b);
      }
    }
  }

  lemma {:induction false} CountAboveMonotone(fs: seq<FileMetadata>, x: Key, e: Key)
    requires Compare(e, x) <= 0
    ensures CountAbove(fs, x) <= CountAbove(fs, e)
  {
    if fs != [] {
      CountAboveMonotone(fs[1..], x, e);
      if Compare(fs[0].largest.userKey, x) > 0 {
        CompareAntisymmetric(fs[0].largest.userKey, x);
        CompareTransitive(e, x, fs[0].largest.userKey);
        CompareAntisymmetric(e, fs[0].largest.userKey);
      }
    }
  }

  /** Moving the upper bound up to a file's largest key removes that file from the count. */
  lemma {:induction false} CountAboveShrinks(fs: seq<FileMetadata>, j: nat, e: Key)
    requires j < |fs| && Compare(fs[j].largest.userKey, e) > 0
    ensures CountAbove(fs, fs[j].largest.userKey) < CountAbove(fs, e)
  {
    var x := fs[j].largest.userKey;
    CompareAntisymmetric(x, e);
    if j == 0 {
      CountAboveMonotone(fs[1..], x, e);
    } else {
      assert fs[1..][j - 1] == fs[j];
      CountAboveShrinks(fs[1..], j - 1, e);
      if Compare(fs[0].largest.userKey, x) > 0 {
        CompareAntisymmetric(fs[0].largest.userKey, x);
        CompareTransitive(e, x, fs[0].largest.userKey);
        CompareAntisymmetric(e, fs[0].largest.userKey);
      }
    }
  }

  // ---------------------------------------------------------------------
  // Level-0 read candidates (the first part of `TryGet`).

  /** The user key lies in the file's range. */
  predicate ContainsKey(f: FileMetadata, key: Key) {
    Compare(key, f.smallest.userKey) >= 0 && Compare(key, f.largest.userKey) <= 0
  }

  /** Indices i0 .. |fs|-1 of the files that contain `key`, in list order. */
  function ContainingFrom(fs: seq<FileMetadata>, key: Key, i0: nat): (r: seq<nat>)
    requires i0 <= |fs|
    ensures forall j :: 0 <= j < |r| ==> i0 <= r[j] < |fs| && ContainsKey(fs[r[j]], key)
    ensures forall i :: i0 <= i < |fs| && ContainsKey(fs[i], key) ==> i in r
    decreases |fs| - i0
  {
    if i0 == |fs| then []
    else (if ContainsKey(fs[i0], key) then [i0] else []) + ContainingFrom(fs, key, i0 + 1)
  }

  /** The file number at index i (0 outside the list). */
  function NumberAt(fs: seq<FileMetadata>, i: nat): nat {
    if i < |fs| then fs[i].fileNumber else 0
  }

  /** The indices ordered by descending file number. */
  predicate SortedByFileNumberDesc(fs: seq<FileMetadata>, idx: seq<nat>) {
    forall p, q :: 0 <= p < q < |idx| ==> NumberAt(fs, idx[p]) >= NumberAt(fs, idx[q])
  }

  predicate IndicesIn(fs: seq<FileMetadata>, idx: seq<nat>) {
    forall j :: 0 <= j < |idx| ==> idx[j] < |fs|
  }

  /** Inserts index i before the first entry whose file number is not above i's (stable). */
  function InsertByFileNumber(fs: seq<FileMetadata>, i: nat, sorted: seq<nat>): (r: seq<nat>)
    requires SortedByFileNumberDesc(fs, sorted)
    ensures multiset(r) == multiset(sorted) + multiset{i}
    ensures SortedByFileNumberDesc(fs, r)
  {
    if sorted == [] then [i]
    else if NumberAt(fs, sorted[0]) <= NumberAt(fs, i) then [i] + sorted
    else
      var rest := InsertByFileNumber(fs, i, sorted[1..]);
      assert sorted == [sorted[0]] + sorted[1..];
      InsertKeepsHead(fs, i, sorted, rest);
      [sorted[0]] + rest
  }

  lemma InsertKeepsHead(fs: seq<FileMetadata>, i: nat, sorted: seq<nat>, rest: seq<nat>)
    requires sorted != [] && SortedByFileNumberDesc(fs, sorted) && SortedByFileNumberDesc(fs, rest)
    requires NumberAt(fs, sorted[0]) > NumberAt(fs, i)
    requires multiset(rest) == multiset(sorted[1..]) + multiset{i}
    ensures SortedByFileNumberDesc(fs, [sorted[0]] + rest)
  {
    forall q | 0 <= q < |rest|
      ensures NumberAt(fs, sorted[0]) >= NumberAt(fs, rest[q])
    {
      assert rest[q] in multiset(rest);
      if rest[q] != i {
        assert rest[q] in multiset(sorted[1..]);
        var k :| 0 <= k < |sorted[1..]| && sorted[1..][k] == rest[q];
        assert sorted[k + 1] == rest[q];
      }
    }
    var r := [sorted[0]] + rest;
    forall p, q | 0 <= p < q < |r|
      ensures NumberAt(fs, r[p]) >= NumberAt(fs, r[q])
    {
      if p == 0 {
        assert r[q] == rest[q - 1];
      } else {
        assert r[p] == rest[p - 1] && r[q] == rest[q - 1];
      }
    }
  }

  /** `OrderByDescending(FileNumber)` as an insertion sort of indices. */
  function SortByFileNumberDesc(fs: seq<FileMetadata>, idx: seq<nat>): (r: seq<nat>)
    ensures multiset(r) == multiset(idx)
    ensures SortedByFileNumberDesc(fs, r)
  {
    if idx == [] then []
    else
      assert idx == [idx[0]] + idx[1..];
      InsertByFileNumber(fs, idx[0], SortByFileNumberDesc(fs, idx[1..]))
  }

  /** `idx` lists exactly the indices of the files that contain `key`. */
  predicate ExactlyContaining(fs: seq<FileMetadata>, idx: seq<nat>, key: Key) {
    && (forall j :: 0 <= j < |idx| ==> idx[j] < |fs| && ContainsKey(fs[idx[j]], key))
    && (forall i :: 0 <= i < |fs| && ContainsKey(fs[i], key) ==> i in idx)
  }

  /** The level-0 files to probe for `key`, newest (largest file number) first. */
  function Level0Candidates(fs: seq<FileMetadata>, key: Key): (r: seq<nat>)
    ensures IndicesIn(fs, r)
    ensures SortedByFileNumberDesc(fs, r)
  {
    var c := ContainingFrom(fs, key, 0);
    var r := SortByFileNumberDesc(fs, c);
    forall j | 0 <= j < |r|
      ensures r[j] < |fs|
    {
      assert r[j] in multiset(c);
    }
    r
  }

  /**
   * The candidates are exactly the files whose range contains the key, each
   * listed with the multiplicity of the scan in list order.
   */
  lemma Level0CandidatesExact(fs: seq<FileMetadata>, key: Key)
    ensures ExactlyContaining(fs, Level0Candidates(fs, key), key)
    ensures multiset(Level0Candidates(fs, key)) == multiset(ContainingFrom(fs, key, 0))
  {
    var c := ContainingFrom(fs, key, 0);
    var r := Level0Candidates(fs, key);
    forall j | 0 <= j < |r|
      ensures r[j] < |fs| && ContainsKey(fs[r[j]], key)
    {
      assert r[j] in multiset(c);
      var k :| 0 <= k < |c| && c[k] == r[j];
    }
    forall i | 0 <= i < |fs| && ContainsKey(fs[i], key)
      ensures i in r
    {
      assert i in multiset(c);
      assert i in multiset(r);
    }
  }

  /** What the table cache answers for one file. */
  datatype ItemState = Found | NotFound | Deleted | Corrupt

  /** Index of the first candidate whose probe decides the lookup, or |c| if none does. */
  function FirstDecisive(fs: seq<FileMetadata>, c: seq<nat>, probe: FileMetadata -> ItemState, from: nat): (r: nat)
    requires from <= |c| && IndicesIn(fs, c)
    ensures from <= r <= |c|
    ensures forall j :: from <= j < r ==> probe(fs[c[j]]) == NotFound
    ensures r < |c| ==> probe(fs[c[r]]) != NotFound
    decreases |c| - from
  {
    if from == |c| then from
    else if probe(fs[c[from]]) != NotFound then from
    else FirstDecisive(fs, c, probe, from + 1)
  }

  /** The seek statistics a read reports: the file to charge, at index `seekFile` of level `seekFileLevel`. */
  datatype GetStats = GetStats(seekFile: Option<nat>, seekFileLevel: int)

  /**
   * The outcome of probing the candidates `c` in order: the decision of the
   * first decisive probe (or None), the first file probed as the file to
   * charge when at least two were probed, and the last file probed.
   */
  function ProbeOutcome(fs: seq<FileMetadata>, c: seq<nat>, probe: FileMetadata -> ItemState): (Option<bool>, GetStats, Option<nat>)
    requires IndicesIn(fs, c)
  {
    var d := FirstDecisive(fs, c, probe, 0);
    var probed := if d < |c| then d + 1 else |c|;
    (if d < |c| then Some(probe(fs[c[d]]) == Found) else None,
     if probed >= 2 then GetStats(Some(c[0]), 0) else GetStats(None, -1),
     if probed >= 1 then Some(c[probed - 1]) else None)
  }


  // ---------------------------------------------------------------------

  class Version {
    const cfg: Config
    var files: seq<seq<FileMetadata>>
    var compactionScore: Score
    var compactionLevel: int
    /** Index, within level `fileToCompactLevel`, of the file nominated by seek charging. */
    var fileToCompact: Option<nat>
    var fileToCompactLevel: int

    ghost predicate Valid()
      reads this
    {
      cfg.Valid() && |files| == cfg.numberOfLevels
    }

    /** A new version: one empty list per level, nothing scored, nothing nominated. */
    constructor (cfg: Config)
      requires cfg.Valid()
      ensures Valid() && this.cfg == cfg
      ensures |files| == cfg.numberOfLevels && forall l :: 0 <= l < |files| ==> files[l] == []
      ensures compactionScore == Unscored && compactionLevel == -1
      ensures fileToCompact == None && fileToCompactLevel == -1
    {
      this.cfg := cfg;
      files := seq(cfg.numberOfLevels, _ => []);
      fileToCompact := None;
      fileToCompactLevel := -1;
      compactionScore := Unscored;
      compactionLevel := -1;
    }

    /**
     * Scores every level but the last and records the lowest level among
     * those with the highest score.
     */
    method Finalize()
      requires Valid()
      modifies this
      ensures Valid() && files == old(files)
      ensures fileToCompact == old(fileToCompact) && fileToCompactLevel == old(fileToCompactLevel)
      ensures (compactionLevel, compactionScore) == BestUpTo(cfg, files, cfg.numberOfLevels - 1)
      ensures 0 <= compactionLevel <= cfg.numberOfLevels - 2 && compactionScore.num >= 0
      ensures compactionScore == LevelScore(cfg, files, compactionLevel)
      ensures forall l :: 0 <= l < cfg.numberOfLevels - 1 ==> !Greater(LevelScore(cfg, files, l), compactionScore)
      ensures forall l :: 0 <= l < compactionLevel ==> Greater(compactionScore, LevelScore(cfg, files, l))
    {
      var bestLevel := -1;
      var bestScore := Unscored;
      var level := 0;
      while level < cfg.numberOfLevels - 1
        invariant 0 <= level <= cfg.numberOfLevels - 1
        invariant (bestLevel, bestScore) == BestUpTo(cfg, files, level)
      {
        var score: Score;
        if level == 0 {
          score := Score(|files[level]|, cfg.level0CompactionTrigger);
        } else {
          var levelBytes := SumFileSizes(files[level]);
          score := Score(levelBytes, MaxBytesForLevel(level));
        }
        if Greater(score, bestScore) {
          bestLevel := level;
          bestScore := score;
        }
        level := level + 1;
      }
      compactionLevel := bestLevel;
      compactionScore := bestScore;
      BestUpToIsLowestMaximum(cfg, files, cfg.numberOfLevels - 1);
    }

    function OverlapInLevel(level: nat, smallestKey: Key, largestKey: Key): (r: bool)
      reads this
      requires Valid() && level < |files|
      ensures level > 0 ==> !r
      ensures level == 0 ==>
        (r <==> exists i :: 0 <= i < |files[0]| && !AfterFile(smallestKey, files[0][i]) && !BeforeFile(largestKey, files[0][i]))
    {
      SomeFileOverlapsRange(level > 0, files[level], smallestKey, largestKey)
    }

    /** A flushed table may move from `level` to `level + 1`. */
    predicate CanPushTo(level: nat, smallestKey: Key, largestKey: Key)
      reads this
      requires Valid() && level + 2 < |files|
    {
      !OverlapInLevel(level + 1, smallestKey, largestKey)
      && SumFileSizes(Overlapping(files[level + 2], smallestKey, largestKey)) <= cfg.maxGrandParentOverlapBytes
    }

    /**
     * The level a flushed memtable covering [smallestKey, largestKey] is
     * placed at.
     */
    method PickLevelForMemTableOutput(smallestKey: Key, largestKey: Key) returns (level: nat)
      requires Valid()
      ensures OverlapInLevel(0, smallestKey, largestKey) ==> level == 0
      ensures level <= cfg.maxMemCompactLevel
      ensures forall l :: 0 <= l < level ==> CanPushTo(l, smallestKey, largestKey)
      ensures !OverlapInLevel(0, smallestKey, largestKey) && level < cfg.maxMemCompactLevel ==>
        !CanPushTo(level, smallestKey, largestKey)
    {
      level := 0;
      if !OverlapInLevel(0, smallestKey, largestKey) {
        while level < cfg.maxMemCompactLevel
          invariant level <= cfg.maxMemCompactLevel
          invariant forall l :: 0 <= l < level ==> CanPushTo(l, smallestKey, largestKey)
        {
          if OverlapInLevel(level + 1, smallestKey, largestKey) {
            break;
          }
          var overlaps, _, _ := GetOverlappingInputs(level + 2, smallestKey, largestKey);
          var totalFileSize := SumFileSizes(overlaps);
          if totalFileSize > cfg.maxGrandParentOverlapBytes {
            break;
          }
          level := level + 1;
        }
      }
    }

    /**
     * The files of `level` that intersect [begin, end]. For level 0, whose
     * files may overlap each other, the range grows to every file found
     * that sticks out of it and the scan restarts, until no file sticks out;
     * `finalBegin`/`finalEnd` are the range the last scan used.
     */
    method GetOverlappingInputs(level: nat, begin: Key, end: Key)
      returns (inputs: seq<FileMetadata>, ghost finalBegin: Key, ghost finalEnd: Key)
      requires Valid() && level < |files|
      ensures level > 0 ==> inputs == Overlapping(files[level], begin, end)
      ensures level == 0 ==> inputs == Overlapping(files[0], finalBegin, finalEnd)
      ensures level == 0 ==> Compare(finalBegin, begin) <= 0 && Compare(end, finalEnd) <= 0
      ensures level == 0 ==>
        finalBegin == begin || exists j :: 0 <= j < |files[0]| && files[0][j].smallest.userKey == finalBegin
      ensures level == 0 ==>
        finalEnd == end || exists j :: 0 <= j < |files[0]| && files[0][j].largest.userKey == finalEnd
      ensures level == 0 ==> forall j :: 0 <= j < |inputs| ==> Within(inputs[j], finalBegin, finalEnd)
    {
      var fs := files[level];
      inputs := [];
      var b, e := begin, end;
      var i := 0;
      while i < |fs|
        invariant 0 <= i <= |fs|
        invariant inputs == Overlapping(fs[..i], b, e)
        invariant level > 0 ==> b == begin && e == end
        invariant level == 0 ==> forall j :: 0 <= j < |inputs| ==> Within(inputs[j], b, e)
        invariant Compare(b, begin) <= 0 && Compare(end, e) <= 0
        invariant b == begin || exists j :: 0 <= j < |fs| && fs[j].smallest.userKey == b
        invariant e == end || exists j :: 0 <= j < |fs| && fs[j].largest.userKey == e
        decreases CountBelow(fs, b) + CountAbove(fs, e), |fs| - i
      {
        var f := fs[i];
        assert fs[..i + 1][..i] == fs[..i];
        i := i + 1;
        var fileStart := f.smallest.userKey;
        var fileLimit := f.largest.userKey;
        if Compare(fileLimit, b) < 0 {
          // entirely before the range
        } else if Compare(fileStart, e) > 0 {
          // entirely after the range
        } else {
          inputs := inputs + [f];
          if level == 0 {
            if Compare(fileStart, b) < 0 {
              CountBelowShrinks(fs, i - 1, b);
              CompareTransitive(fileStart, b, begin);
              b := fileStart;
              inputs := [];
              i := 0;
            } else if Compare(fileLimit, e) > 0 {
              CountAboveShrinks(fs, i - 1, e);
              CompareAntisymmetric(fileLimit, e);
              CompareTransitive(end, e, fileLimit);
              e := fileLimit;
              inputs := [];
              i := 0;
            }
          }
        }
      }
      assert fs[..i] == fs;
      finalBegin, finalEnd := b, e;
    }

    /**
     * Charges one seek to the file a read reported: its allowed seeks drop by
     * one, and once they are exhausted it becomes the file to compact unless
     * one was nominated before.
     */
    method UpdateStats(stats: GetStats) returns (r: bool)
      requires Valid()
      requires stats.seekFile.Some? ==>
        0 <= stats.seekFileLevel < |files| && stats.seekFile.value < |files[stats.seekFileLevel]|
      modifies this
      ensures Valid() && !r
      ensures compactionScore == old(compactionScore) && compactionLevel == old(compactionLevel)
      ensures stats.seekFile.None? ==>
        files == old(files) && fileToCompact == old(fileToCompact) && fileToCompactLevel == old(fileToCompactLevel)
      ensures stats.seekFile.Some? ==>
        var l, i := stats.seekFileLevel, stats.seekFile.value;
        var f := old(files)[l][i];
        && files == old(files)[l := old(files)[l][i := f.(allowedSeeks := f.allowedSeeks - 1)]]
        && (if f.allowedSeeks - 1 <= 0 && old(fileToCompact).None?
            then fileToCompact == Some(i) && fileToCompactLevel == l
            else fileToCompact == old(fileToCompact) && fileToCompactLevel == old(fileToCompactLevel))
    {
      if stats.seekFile.Some? {
        var l, i := stats.seekFileLevel, stats.seekFile.value;
        var f := files[l][i];
        f := f.(allowedSeeks := f.allowedSeeks - 1);
        files := files[l := files[l][i := f]];
        if f.allowedSeeks <= 0 && fileToCompact.None? {
          fileToCompact := Some(i);
          fileToCompactLevel := l;
        }
      }
      return false;
    }

    /**
     * The level-0 part of a point read: probes the level-0 files containing
     * `key`, newest first, until one decides the read. `probe` is the table
     * cache's answer for a file. When a second file is probed, the first one
     * probed is charged the seek. `result` is `None` when level 0 did not
     * decide the read and the search goes on at level 1.
     */
    method TryGetLevel0(key: Key, probe: FileMetadata -> ItemState)
      returns (result: Option<bool>, stats: GetStats, lastFileRead: Option<nat>)
      requires Valid()
      ensures (result, stats, lastFileRead) == ProbeOutcome(files[0], Level0Candidates(files[0], key), probe)
    {
      var fs := files[0];
      var c := Level0Candidates(fs, key);
      if |fs| == 0 || |c| == 0 {
        return None, GetStats(None, -1), None;
      }
      result, stats, lastFileRead := ProbeInOrder(fs, c, probe);
    }
  }

  /** The probing loop of `TryGetLevel0`, over the candidates `c` in order. */
  method ProbeInOrder(fs: seq<FileMetadata>, c: seq<nat>, probe: FileMetadata -> ItemState)
    returns (result: Option<bool>, stats: GetStats, lastFileRead: Option<nat>)
    requires IndicesIn(fs, c)
    ensures (result, stats, lastFileRead) == ProbeOutcome(fs, c, probe)
  {
    stats := GetStats(None, -1);
    lastFileRead := None;
    result := None;
    var i := 0;
    while i < |c|
      invariant 0 <= i <= |c|
      invariant FirstDecisive(fs, c, probe, 0) == FirstDecisive(fs, c, probe, i)
      invariant i >= 2 ==> stats == GetStats(Some(c[0]), 0)
      invariant i < 2 ==> stats == GetStats(None, -1)
      invariant i >= 1 ==> lastFileRead == Some(c[i - 1])
      invariant i == 0 ==> lastFileRead.None?
      invariant result == None
    {
      if lastFileRead.Some? && stats.seekFile.None? {
        stats := GetStats(lastFileRead, 0);
      }
      lastFileRead := Some(c[i]);
      var state := probe(fs[c[i]]);
      if state != NotFound {
        assert FirstDecisive(fs, c, probe, i) == i;
        result := Some(state == Found);
        return;
      }
      i := i + 1;
    }
  }
}
