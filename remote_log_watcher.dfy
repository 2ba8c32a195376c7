/** LogReader/RemoteLogWatcher.cs: the same read cycle over a file fetched through an SFTP
    session, triggered by a one-shot timer. The session and the timer's callbacks are not part
    of this model; each cycle is given the file's content. */
module RemoteWatcher {
  import opened Wrappers
  import opened Incremental

  /** The timer `StartWatch` creates: `AutoReset = false`, `Interval = period`. */
  datatype TimerState = TimerState(interval: int, autoReset: bool, started: bool)

  /** The `ArgumentException` of `Timer.Interval` for a period that is not positive. */
  const InvalidInterval: string := "interval must be positive"

  class RemoteLogWatcher {
    var isWatching: bool
    var fileLength: nat
    var position: nat
    /** `timer`, null until `StartWatch` and after `Dispose`. */
    var timer: Option<TimerState>
    const filePath: string

    predicate Valid()
      reads this
    {
      position == fileLength
    }

    constructor (filePath: string)
      ensures this.filePath == filePath && !isWatching && timer.None?
      ensures fileLength == 0 && position == 0 && Valid()
    {
      this.filePath := filePath;
      isWatching := false;
      fileLength := 0;
      position := 0;
      timer := None;
    }

    /** `StartWatch(period)`: throws when already watching; otherwise sets `IsWatching` (which
        nothing resets), then creates and starts the timer, whose `Interval` setter throws for
        a period that is not positive. */
    method StartWatch(period: int) returns (outcome: Outcome)
      modifies this
      ensures old(isWatching) ==> outcome == Fail(AlreadyWatching) && timer == old(timer)
      ensures !old(isWatching) && period <= 0 ==> outcome == Fail(InvalidInterval) && timer == old(timer)
      ensures !old(isWatching) && period > 0 ==> outcome == Pass && timer == Some(TimerState(period, false, true))
      ensures isWatching
      ensures fileLength == old(fileLength) && position == old(position)
    {
      if isWatching {
        return Fail(AlreadyWatching);
      }
      isWatching := true;
      if period <= 0 {
        return Fail(InvalidInterval);
      }
      var t := TimerState(period, false, false);
      t := t.(started := true);
      timer := Some(t);
      outcome := Pass;
    }

    /** `ReadToEndLine` on the remote file's current `content`. */
    method ReadToEndLine(content: string) returns (recreated: bool, blocks: seq<Block>)
      modifies this
      ensures CycleResult(content, old(position), old(fileLength), recreated, blocks, position)
      ensures fileLength == |content|
      ensures old(Valid()) ==> Valid()
      ensures isWatching == old(isWatching) && timer == old(timer)
    {
      var newPosition;
      recreated, blocks, newPosition := ReadCycle(content, position, fileLength);
      fileLength := |content|;
      position := newPosition;
    }

    /** `Dispose`: disposes and forgets the timer if there is one; a second call changes nothing. */
    method Dispose()
      modifies this
      ensures timer.None?
      ensures isWatching == old(isWatching) && fileLength == old(fileLength) && position == old(position)
    {
      if timer.Some? {
        timer := None;
      }
    }
  }
}
