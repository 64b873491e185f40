/**
 * The engine state shared by the writer and the compactor: the memtables,
 * the open log and descriptor writers, the version set, and the decisions
 * of `CreateNewLog`, `LogAndApply` and `BuildTable`. File-system calls are
 * kept as what they decide: a file opened or not (a parameter), and the
 * files deleted (a list).
 */
module StorageStates {
  import opened Wrappers
  import opened Keys
  import opened StorageConfig
  import opened Versions
  import opened VersionSets
  import opened MemTables

  /** The kinds of database files. */
  datatype FileType = LogFile | DescriptorFile | TableFile | TempFile | CurrentFile | DBLockFile | InfoLogFile

  /** A database file, named by its number and kind. */
  datatype FileRef = FileRef(number: nat, fileType: FileType)

  /** An open log writer, by the number of the file it writes. */
  datatype LogWriter = LogWriter(fileNumber: nat)

  /**
   * A task's state. `Task.IsCompleted` holds in every final state: ran to
   * completion, faulted or cancelled.
   */
  datatype TaskState = TaskRunning | TaskRanToCompletion | TaskFaulted | TaskCanceled
  {
    predicate IsCompleted() {
      this != TaskRunning
    }
    predicate IsFaultedOrCanceled() {
      this == TaskFaulted || this == TaskCanceled
    }
  }

  /** An exception of the .NET string library. */
  datatype StringError = ArgumentOutOfRange

  /** `String.Substring(start, length)`: it throws unless both lie inside the string. */
  function Substring(s: string, start: int, length: int): (r: Result<string, StringError>)
    ensures r.Ok? <==> 0 <= start && 0 <= length && start + length <= |s|
    ensures r.Ok? ==> |r.value| == length && forall i :: 0 <= i < length ==> r.value[i] == s[start + i]
  {
    if 0 <= start && 0 <= length && start + length <= |s| then Ok(s[start..start + length])
    else Err(ArgumentOutOfRange)
  }

  /** The decimal digits of n. */
  function Decimal(n: nat): (r: string)
    ensures |r| > 0
  {
    var d := ['0', '1', '2', '3', '4', '5', '6', '7', '8', '9'][n % 10];
    if n < 10 then [d] else Decimal(n / 10) + [d]
  }

  /** The name of descriptor file n of a database. */
  function DescriptorFileName(databaseName: string, n: nat): string {
    databaseName + "/MANIFEST-" + Decimal(n)
  }

  /**
   * The contents `SetCurrentFile` writes to CURRENT: the descriptor name
   * without the database directory, and a newline. The length argument of
   * the `Substring` call is the whole name's length.
   */
  function CurrentFileContents(databaseName: string, manifest: string): Result<string, StringError> {
    match Substring(manifest, |databaseName| + 1, |manifest|)
    case Err(e) => Err(e)
    case Ok(name) => Ok(name + "\n")
  }

  /**
   * `SetCurrentFile` always throws: the substring starts past the first
   * character and is as long as the whole name, so it runs off the end.
   */
  lemma CurrentFileContentsAlwaysFails(databaseName: string, manifest: string)
    ensures CurrentFileContents(databaseName, manifest) == Err(ArgumentOutOfRange)
  {
  }

  /** The changes a version edit carries; each field is set at most once by `LogAndApply`. */
  class VersionEdit {
    var logNumber: Option<nat>
    var prevLogNumber: Option<nat>
    var nextFileNumber: Option<nat>
    var lastSequence: Option<nat>
    /** Files added, each with its level. */
    var newFiles: seq<(nat, FileMetadata)>

    constructor ()
      ensures logNumber.None? && prevLogNumber.None? && nextFileNumber.None? && lastSequence.None?
      ensures newFiles == []
    {
      logNumber := None;
      prevLogNumber := None;
      nextFileNumber := None;
      lastSequence := None;
      newFiles := [];
    }


    /**
     * The first steps of `LogAndApply`: an edit without a log number takes
     * the current one, an edit whose log number lies outside
     * [logNumber, nextFileNumber) is rejected untouched, and an accepted
     * edit gets the missing previous log number, the next file number and
     * the last sequence.
     */
    method FillIn(logNumber0: nat, prevLogNumber0: nat, nextFileNumber0: nat, lastSequence0: nat) returns (accepted: bool)
      modifies this
      ensures accepted == LogNumberAccepted(old(logNumber), logNumber0, nextFileNumber0)
      ensures !accepted ==>
        && logNumber == old(logNumber) && prevLogNumber == old(prevLogNumber)
        && nextFileNumber == old(nextFileNumber) && lastSequence == old(lastSequence)
      ensures accepted ==>
        && logNumber == Some(if old(logNumber).Some? then old(logNumber).value else logNumber0)
        && prevLogNumber == Some(if old(prevLogNumber).Some? then old(prevLogNumber).value else prevLogNumber0)
        && nextFileNumber == Some(nextFileNumber0) && lastSequence == Some(lastSequence0)
      ensures newFiles == old(newFiles)
    {
      if logNumber.None? {
        logNumber := Some(logNumber0);
      } else if logNumber.value < logNumber0 || logNumber.value >= nextFileNumber0 {
        return false;
      }
      if prevLogNumber.None? {
        prevLogNumber := Some(prevLogNumber0);
      }
      nextFileNumber := Some(nextFileNumber0);
      lastSequence := Some(lastSequence0);
      return true;
    }  }

  /** The log-number check of `LogAndApply`: an edit's own log number must lie in [LogNumber, NextFileNumber). */
  predicate LogNumberAccepted(editLog: Option<nat>, logNumber: nat, nextFileNumber: nat) {
    editLog.None? || (logNumber <= editLog.value < nextFileNumber)
  }

  class StorageState {
    const cfg: Config
    const databaseName: string
    var memTable: MemTable
    var immutableMemTable: MemTable?
    var backgroundCompactionScheduled: bool
    var backgroundTask: TaskState
    var shuttingDown: bool
    var logWriter: Option<LogWriter>
    /** The records written to the current log, oldest first. */
    var logContents: seq<seq<byte>>
    var descriptorLogWriter: Option<LogWriter>
    var versionSet: VersionSet
    var logFileNumber: nat
    /** The files removed through `FileSystem.DeleteFile`, in order. */
    var deletedFiles: seq<FileRef>

    ghost predicate Valid()
      reads this, versionSet, versionSet.current
    {
      versionSet.Valid() && versionSet.cfg == cfg
    }

    /** Nothing of the state or of its version set differs from the earlier state. */
    twostate predicate Unchanged()
      reads this, versionSet
    {
      && memTable == old(memTable) && immutableMemTable == old(immutableMemTable)
      && backgroundCompactionScheduled == old(backgroundCompactionScheduled) && backgroundTask == old(backgroundTask)
      && shuttingDown == old(shuttingDown) && logWriter == old(logWriter) && logContents == old(logContents)
      && descriptorLogWriter == old(descriptorLogWriter) && versionSet == old(versionSet)
      && logFileNumber == old(logFileNumber) && deletedFiles == old(deletedFiles)
      && versionSet.lastSequence == old(versionSet.lastSequence) && versionSet.prevLogNumber == old(versionSet.prevLogNumber)
      && versionSet.logNumber == old(versionSet.logNumber) && versionSet.nextFileNumber == old(versionSet.nextFileNumber)
      && versionSet.manifestFileNumber == old(versionSet.manifestFileNumber) && versionSet.current == old(versionSet.current)
    }

    /** Every field but the list of deleted files is unchanged. */
    twostate predicate OnlyDeletionsChanged()
      reads this
    {
      && memTable == old(memTable) && immutableMemTable == old(immutableMemTable)
      && backgroundCompactionScheduled == old(backgroundCompactionScheduled) && backgroundTask == old(backgroundTask)
      && shuttingDown == old(shuttingDown) && logWriter == old(logWriter) && logContents == old(logContents)
      && descriptorLogWriter == old(descriptorLogWriter) && versionSet == old(versionSet)
      && logFileNumber == old(logFileNumber)
    }

    /** A state with an empty memtable, no open logs and a completed background task. */
    constructor (cfg: Config, databaseName: string)
      requires cfg.Valid()
      ensures Valid() && this.cfg == cfg && this.databaseName == databaseName
      ensures fresh(memTable) && fresh(versionSet) && fresh(versionSet.current)
      ensures memTable.entries == [] && immutableMemTable == null
      ensures !backgroundCompactionScheduled && backgroundTask == TaskRanToCompletion && !shuttingDown
      ensures logWriter.None? && descriptorLogWriter.None? && logContents == [] && deletedFiles == []
      ensures versionSet.lastSequence == 0 && logFileNumber == 0
    {
      this.cfg := cfg;
      this.databaseName := databaseName;
      memTable := new MemTable();
      immutableMemTable := null;
      backgroundCompactionScheduled := false;
      backgroundTask := TaskRanToCompletion;
      shuttingDown := false;
      logWriter := None;
      logContents := [];
      descriptorLogWriter := None;
      versionSet := new VersionSet(cfg);
      logFileNumber := 0;
      deletedFiles := [];
    }

    /**
     * Opens a log with a new file number. When the file cannot be opened
     * (`openFails`), the number is handed back and the exception rethrown
     * (`ok` false): the log writer and log number stay as they were.
     */
    method CreateNewLog(openFails: bool) returns (ok: bool)
      requires Valid()
      modifies this, versionSet
      ensures Valid() && ok == !openFails
      ensures ok ==> logFileNumber == old(versionSet.nextFileNumber) && logWriter == Some(LogWriter(logFileNumber))
      ensures ok ==> versionSet.nextFileNumber == old(versionSet.nextFileNumber) + 1 && logContents == []
      ensures !ok ==> logFileNumber == old(logFileNumber) && logWriter == old(logWriter) && logContents == old(logContents)
      ensures !ok ==> versionSet.nextFileNumber == old(versionSet.nextFileNumber)
      ensures versionSet == old(versionSet) && versionSet.current == old(versionSet.current)
      ensures versionSet.lastSequence == old(versionSet.lastSequence) && versionSet.logNumber == old(versionSet.logNumber)
      ensures versionSet.prevLogNumber == old(versionSet.prevLogNumber)
      ensures versionSet.manifestFileNumber == old(versionSet.manifestFileNumber)
      ensures memTable == old(memTable) && immutableMemTable == old(immutableMemTable)
      ensures backgroundCompactionScheduled == old(backgroundCompactionScheduled) && backgroundTask == old(backgroundTask)
      ensures shuttingDown == old(shuttingDown) && descriptorLogWriter == old(descriptorLogWriter)
      ensures deletedFiles == old(deletedFiles)
    {
      var newFileNumber := versionSet.NewFileNumber();
      if openFails {
        versionSet.ReuseFileNumber(newFileNumber);
        return false;
      }
      logWriter := Some(LogWriter(newFileNumber));
      logContents := [];
      logFileNumber := newFileNumber;
      return true;
    }

    /**
     * Applies an edit to the current version and installs the result.
     * `built` is what the version builder saves into the new version, and
     * `ioFails` says that creating or writing the descriptor fails. Every
     * exception is swallowed; `installed` tells whether the new version
     * became current. A call that has to create the descriptor writer
     * first always ends in the `SetCurrentFile` exception, which removes
     * the writer again and deletes the new descriptor file.
     */
    method LogAndApply(edit: VersionEdit, built: seq<seq<FileMetadata>>, ioFails: bool) returns (installed: bool)
      requires Valid() && |built| == cfg.numberOfLevels
      modifies this, versionSet, edit
      ensures Valid() && versionSet == old(versionSet)
      ensures var accepted := LogNumberAccepted(old(edit.logNumber), old(versionSet.logNumber), old(versionSet.nextFileNumber));
        installed <==> accepted && old(descriptorLogWriter).Some? && !ioFails
      ensures !LogNumberAccepted(old(edit.logNumber), old(versionSet.logNumber), old(versionSet.nextFileNumber)) ==>
        && edit.logNumber == old(edit.logNumber) && edit.prevLogNumber == old(edit.prevLogNumber)
        && edit.nextFileNumber == old(edit.nextFileNumber) && edit.lastSequence == old(edit.lastSequence)
        && deletedFiles == old(deletedFiles)
      ensures LogNumberAccepted(old(edit.logNumber), old(versionSet.logNumber), old(versionSet.nextFileNumber)) ==>
        && edit.logNumber == Some(if old(edit.logNumber).Some? then old(edit.logNumber).value else old(versionSet.logNumber))
        && edit.prevLogNumber == Some(if old(edit.prevLogNumber).Some? then old(edit.prevLogNumber).value else old(versionSet.prevLogNumber))
        && edit.nextFileNumber == Some(old(versionSet.nextFileNumber))
        && edit.lastSequence == Some(old(versionSet.lastSequence))
        && deletedFiles == old(deletedFiles) +
             (if old(descriptorLogWriter).None? then [FileRef(old(versionSet.manifestFileNumber), DescriptorFile)] else [])
      ensures installed ==>
        && fresh(versionSet.current) && versionSet.current.files == built
        && (versionSet.current.compactionLevel, versionSet.current.compactionScore) == BestUpTo(cfg, built, cfg.numberOfLevels - 1)
        && versionSet.current.fileToCompact.None?
        && versionSet.logNumber == edit.logNumber.value && versionSet.prevLogNumber == edit.prevLogNumber.value
      ensures !installed ==>
        versionSet.current == old(versionSet.current) && versionSet.logNumber == old(versionSet.logNumber)
        && versionSet.prevLogNumber == old(versionSet.prevLogNumber)
      ensures descriptorLogWriter == old(descriptorLogWriter) && edit.newFiles == old(edit.newFiles)
      ensures versionSet.nextFileNumber == old(versionSet.nextFileNumber) && versionSet.lastSequence == old(versionSet.lastSequence)
      ensures versionSet.manifestFileNumber == old(versionSet.manifestFileNumber)
      ensures memTable == old(memTable) && immutableMemTable == old(immutableMemTable)
      ensures logWriter == old(logWriter) && logContents == old(logContents) && logFileNumber == old(logFileNumber)
      ensures backgroundCompactionScheduled == old(backgroundCompactionScheduled) && backgroundTask == old(backgroundTask)
      ensures shuttingDown == old(shuttingDown)
    {
      var accepted := edit.FillIn(versionSet.logNumber, versionSet.prevLogNumber, versionSet.nextFileNumber, versionSet.lastSequence);
      if !accepted {
        // InvalidOperationException("LogNumber"), swallowed; no manifest was started
        return false;
      }
      var version := BuildVersion(built);
      var logged := WriteDescriptor(ioFails);
      if !logged {
        return false;
      }
      versionSet.current := version;
      versionSet.logNumber := edit.logNumber.value;
      versionSet.prevLogNumber := edit.prevLogNumber.value;
      return true;
    }

    /** The new version `LogAndApply` builds: the builder's files, scored by `Finalize`. */
    method BuildVersion(built: seq<seq<FileMetadata>>) returns (version: Version)
      requires |built| == cfg.numberOfLevels && cfg.Valid()
      ensures fresh(version) && version.Valid() && version.cfg == cfg && version.files == built
      ensures (version.compactionLevel, version.compactionScore) == BestUpTo(cfg, built, cfg.numberOfLevels - 1)
      ensures version.fileToCompact.None?
    {
      version := new Version(cfg);
      version.files := built;
      version.Finalize();
    }

    /**
     * Writes the edit to the descriptor log, creating the descriptor first
     * when none is open. `logged` tells whether `LogAndApply` goes on to
     * install the version. A descriptor created here never survives: the
     * `SetCurrentFile` exception, or an I/O failure, closes it and deletes
     * its file.
     */
    method WriteDescriptor(ioFails: bool) returns (logged: bool)
      modifies this
      ensures logged <==> old(descriptorLogWriter).Some? && !ioFails
      ensures descriptorLogWriter == old(descriptorLogWriter)
      ensures deletedFiles == old(deletedFiles) +
        (if old(descriptorLogWriter).None? then [FileRef(versionSet.manifestFileNumber, DescriptorFile)] else [])
      ensures memTable == old(memTable) && immutableMemTable == old(immutableMemTable) && versionSet == old(versionSet)
      ensures logWriter == old(logWriter) && logContents == old(logContents) && logFileNumber == old(logFileNumber)
      ensures backgroundCompactionScheduled == old(backgroundCompactionScheduled) && backgroundTask == old(backgroundTask)
      ensures shuttingDown == old(shuttingDown)
    {
      var newManifestFile: Option<FileRef> := None;
      if descriptorLogWriter.None? {
        newManifestFile := Some(FileRef(versionSet.manifestFileNumber, DescriptorFile));
        if ioFails {
          // opening the descriptor file fails
          deletedFiles := deletedFiles + [newManifestFile.value];
          return false;
        }
        descriptorLogWriter := Some(LogWriter(versionSet.manifestFileNumber));
      }
      if ioFails {
        // encoding or flushing the edit fails
        return false;
      }
      if newManifestFile.Some? {
        var written := SetCurrentFile(versionSet.manifestFileNumber);
        if !written {
          descriptorLogWriter := None;
          deletedFiles := deletedFiles + [newManifestFile.value];
          return false;
        }
      }
      return true;
    }

    /**
     * Points CURRENT at descriptor `descriptorNumber`; `written` tells
     * whether the contents could be formed. It never can (see
     * `CurrentFileContentsAlwaysFails`), so the call always throws before
     * any file is touched.
     */
    method SetCurrentFile(descriptorNumber: nat) returns (written: bool)
      ensures written == CurrentFileContents(databaseName, DescriptorFileName(databaseName, descriptorNumber)).Ok?
      ensures !written
    {
      var contents := CurrentFileContents(databaseName, DescriptorFileName(databaseName, descriptorNumber));
      CurrentFileContentsAlwaysFails(databaseName, DescriptorFileName(databaseName, descriptorNumber));
      written := contents.Ok?;
    }

    /**
     * Writes the memtable's entries (`keys`, in its iterator's order) to
     * table `fileNumber`. `builderFileSize` is the size the table builder
     * reports after `Finish`. A non-empty memtable gives the first key as
     * the smallest and the last as the largest; an empty one gives a file
     * of size 0, whose table and temporary files are deleted. `fed` is the
     * keys handed to the builder, in order.
     */
    method BuildTable(keys: seq<InternalKey>, fileNumber: nat, builderFileSize: PosInt)
      returns (meta: FileMetadata, fed: seq<InternalKey>)
      modifies this
      ensures meta.fileNumber == fileNumber && fed == keys
      ensures |keys| > 0 ==>
        && meta.smallest == keys[0] && meta.largest == keys[|keys| - 1] && meta.fileSize == builderFileSize
        && deletedFiles == old(deletedFiles)
      ensures |keys| == 0 ==>
        && meta.fileSize == 0 && meta.smallest == EmptyInternalKey && meta.largest == EmptyInternalKey
        && deletedFiles == old(deletedFiles) + [FileRef(fileNumber, TableFile), FileRef(fileNumber, TempFile)]
      ensures meta.fileSize > 0 <==> |keys| > 0
      ensures memTable == old(memTable) && immutableMemTable == old(immutableMemTable) && versionSet == old(versionSet)
      ensures logWriter == old(logWriter) && logContents == old(logContents) && logFileNumber == old(logFileNumber)
      ensures descriptorLogWriter == old(descriptorLogWriter) && shuttingDown == old(shuttingDown)
      ensures backgroundCompactionScheduled == old(backgroundCompactionScheduled) && backgroundTask == old(backgroundTask)
    {
      meta := FileMetadata(fileNumber, 0, EmptyInternalKey, EmptyInternalKey, 0);
      fed := [];
      if |keys| > 0 {
        meta := meta.(smallest := keys[0]);
        var i := 0;
        while i < |keys|
          invariant 0 <= i <= |keys| && fed == keys[..i]
          invariant meta.fileNumber == fileNumber && meta.fileSize == 0 && meta.smallest == keys[0]
          invariant i > 0 ==> meta.largest == keys[i - 1]
        {
          meta := meta.(largest := keys[i]);
          fed := fed + [keys[i]];
          i := i + 1;
        }
        assert keys[..i] == keys;
        meta := meta.(fileSize := builderFileSize);
      }
      if meta.fileSize == 0 {
        deletedFiles := deletedFiles + [FileRef(fileNumber, TableFile), FileRef(fileNumber, TempFile)];
      }
    }
  }

  /** Keys in ascending internal-key order. */
  predicate SortedKeys(keys: seq<InternalKey>) {
    forall i, j :: 0 <= i < j < |keys| ==> CompareInternal(keys[i], keys[j]) < 0
  }

  /**
   * For a memtable iterated in key order, the first key is the smallest and
   * the last the largest: `BuildTable`'s bounds cover every key of the table.
   */
  lemma BuildTableBoundsCover(keys: seq<InternalKey>)
    requires |keys| > 0 && SortedKeys(keys)
    ensures forall i :: 0 <= i < |keys| ==>
      CompareInternal(keys[0], keys[i]) <= 0 && CompareInternal(keys[i], keys[|keys| - 1]) <= 0
  {
    forall i | 0 <= i < |keys|
      ensures CompareInternal(keys[0], keys[i]) <= 0 && CompareInternal(keys[i], keys[|keys| - 1]) <= 0
    {
      if i == 0 {
        CompareInternalAntisymmetric(keys[0], keys[0]);
      }
      if i == |keys| - 1 {
        CompareInternalAntisymmetric(keys[i], keys[i]);
      }
    }
  }

  /**
   * Once a state has no descriptor writer, `LogAndApply` can never install
   * a version: it keeps the writer absent, and without a writer it fails.
   */
  method LogAndApplyNeverInstalls(s: StorageState, edits: seq<VersionEdit>, built: seq<seq<FileMetadata>>, ioFails: seq<bool>)
    returns (installedAny: bool)
    requires s.Valid() && |built| == s.cfg.numberOfLevels && |ioFails| == |edits|
    requires s.descriptorLogWriter.None?
    modifies s, s.versionSet, set e | e in edits
    ensures !installedAny && s.descriptorLogWriter.None?
  {
    installedAny := false;
    var i := 0;
    while i < |edits|
      invariant 0 <= i <= |edits| && s.Valid() && s.descriptorLogWriter.None? && !installedAny
      invariant s.versionSet == old(s.versionSet)
    {
      var installed := s.LogAndApply(edits[i], built, ioFails[i]);
      installedAny := installedAny || installed;
      i := i + 1;
    }
  }
}
