/**
 * The state of one running compaction: the list of output tables it has
 * started, in the order they were added.
 */
module CompactionStates {
  import opened Keys
  import opened Versions

  /**
   * The metadata `AddOutput` starts a table with: the file number, empty
   * smallest and largest keys, and no bytes yet.
   */
  function NewOutput(fileNumber: nat): (r: FileMetadata)
    ensures r.fileNumber == fileNumber && r.fileSize == 0
    ensures r.smallest == EmptyInternalKey && r.largest == EmptyInternalKey
  {
    FileMetadata(fileNumber, 0, EmptyInternalKey, EmptyInternalKey, 0)
  }

  class CompactionState {
    var outputs: seq<FileMetadata>
    /** A C# `decimal` in the source; -1 until a snapshot is chosen. */
    var smallestSnapshot: int
    var totalBytes: int

    /** A new state: no outputs and no smallest snapshot. */
    constructor ()
      ensures outputs == [] && smallestSnapshot == -1
    {
      outputs := [];
      smallestSnapshot := -1;
      totalBytes := 0;
    }

    /** Starts one more output table; earlier outputs are unchanged. */
    method AddOutput(fileNumber: nat)
      modifies this
      ensures outputs == old(outputs) + [NewOutput(fileNumber)]
      ensures CurrentOutput() == NewOutput(fileNumber)
      ensures smallestSnapshot == old(smallestSnapshot) && totalBytes == old(totalBytes)
    {
      outputs := outputs + [NewOutput(fileNumber)];
    }

    /** The outputs in the order they were added. */
    function Outputs(): (r: seq<FileMetadata>)
      reads this
      ensures r == outputs
    {
      outputs
    }

    /** The output added last; there must be one. */
    function CurrentOutput(): (r: FileMetadata)
      reads this
      requires |outputs| > 0
      ensures r in outputs && r == Outputs()[|Outputs()| - 1]
    {
      outputs[|outputs| - 1]
    }
  }
}
