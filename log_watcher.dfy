/** LogReader/LogWatcher.cs: a watcher over a local log file that keeps a read cursor
    (`position`, `fileLength`) between cycles. The file-system notification that triggers a
    cycle is not part of this model; each cycle is given the file's content. */
module Watcher {
  import opened Wrappers
  import opened Incremental

  class LogWatcher {
    /** `IsWatching`. */
    var isWatching: bool
    /** The length the last cycle saw. */
    var fileLength: nat
    /** Where the next cycle starts reading. */
    var position: nat
    /** `fileSystemWatcher != null`. */
    var notifierOpen: bool
    const filePath: string

    /** Every cycle leaves the cursor at the end of what it saw. */
    predicate Valid()
      reads this
    {
      position == fileLength
    }

    /** The constructor creates the notifier and starts with an empty cursor. */
    constructor (filePath: string)
      ensures this.filePath == filePath && !isWatching && notifierOpen
      ensures fileLength == 0 && position == 0 && Valid()
    {
      this.filePath := filePath;
      isWatching := false;
      fileLength := 0;
      position := 0;
      notifierOpen := true;
    }

    /** `StartFileSystemWatcher`: throws when already watching, otherwise starts watching. */
    method StartFileSystemWatcher() returns (outcome: Outcome)
      modifies this
      ensures outcome == if old(isWatching) then Fail(AlreadyWatching) else Pass
      ensures isWatching
      ensures fileLength == old(fileLength) && position == old(position) && notifierOpen == old(notifierOpen)
    {
      if isWatching {
        return Fail(AlreadyWatching);
      }
      isWatching := true;
      outcome := Pass;
    }

    /** `ReadToEndLine` on the file's current `content`: the cycle's recreation flag and
        blocks, the new length saved before the lines are read and the position after them. */
    method ReadToEndLine(content: string) returns (recreated: bool, blocks: seq<Block>)
      modifies this
      ensures CycleResult(content, old(position), old(fileLength), recreated, blocks, position)
      ensures fileLength == |content|
      ensures old(Valid()) ==> Valid()
      ensures isWatching == old(isWatching) && notifierOpen == old(notifierOpen)
    {
      var newPosition;
      recreated, blocks, newPosition := ReadCycle(content, position, fileLength);
      fileLength := |content|;
      position := newPosition;
    }

    /** `Dispose`: releases the notifier if there is one; a second call changes nothing. */
    method Dispose()
      modifies this
      ensures !notifierOpen
      ensures isWatching == old(isWatching) && fileLength == old(fileLength) && position == old(position)
    {
      if notifierOpen {
        notifierOpen := false;
      }
    }
  }
}
