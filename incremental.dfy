/** The read cycle shared by LogReader/LogWatcher.cs and LogReader/RemoteLogWatcher.cs
    (`ReadToEndLine`): from a saved position to the end of the stream, with truncation
    detection, empty lines skipped and the rest delivered in blocks of at most 500 lines, each
    with a progress percentage. The stream is the file's content, one character per byte. */
module Incremental {
  import opened Wrappers
  import opened Seqs
  import opened Text

  /** The message of the exception a second start throws. */
  const AlreadyWatching: string := "Log file already watching"

  /** `LineBlockSize`: the most lines a block holds. */
  const LineBlockSize: nat := 500

  /** The first line break at or after `pos`, or the end of the stream. */
  function LineEnd(s: string, pos: nat): (e: nat)
    requires pos <= |s|
    ensures pos <= e <= |s|
    ensures forall i :: pos <= i < e ==> !IsBreak(s[i])
    ensures e < |s| ==> IsBreak(s[e])
    decreases |s| - pos
  {
    if pos == |s| || IsBreak(s[pos]) then pos else LineEnd(s, pos + 1)
  }

  /** The position after the terminator of a line that ends at `e`: "\r\n" counts as one
      terminator, a lone "\r" or "\n" as another. */
  function AfterBreak(s: string, e: nat): (next: nat)
    requires e <= |s|
    ensures e < next <= |s| || (e == |s| && next == e)
  {
    if e == |s| then e
    else if s[e] == '\r' && e + 1 < |s| && s[e + 1] == '\n' then e + 2
    else e + 1
  }

  /** `StreamReader.ReadLine` at position `pos`: None at the end of the stream, otherwise the
      characters up to the next line break and the position after it. A last line without
      terminator is returned as it is. */
  function ReadLine(s: string, pos: nat): (r: Option<(string, nat)>)
    ensures r.None? <==> pos >= |s|
    ensures r.Some? ==> pos < r.value.1 <= |s|
    ensures r.Some? ==> forall i :: 0 <= i < |r.value.0| ==> !IsBreak(r.value.0[i])
    ensures r.Some? ==> pos + |r.value.0| <= |s| && r.value.0 == s[pos..pos + |r.value.0|]
    ensures r.Some? ==> pos + |r.value.0| == |s| || IsBreak(s[pos + |r.value.0|])
    ensures r.Some? ==> var e := pos + |r.value.0|;
      if e == |s| then r.value.1 == e
      else if s[e] == '\r' && e + 1 < |s| && s[e + 1] == '\n' then r.value.1 == e + 2
      else r.value.1 == e + 1
  {
    if pos >= |s| then None
    else
      var e := LineEnd(s, pos);
      Some((s[pos..e], AfterBreak(s, e)))
  }

  /** Every line `ReadLine` returns from `pos` until it returns null. */
  function LinesFrom(s: string, pos: nat): (r: seq<string>)
    ensures pos >= |s| ==> r == []
    decreases |s| - pos
  {
    match ReadLine(s, pos)
    case None => []
    case Some((line, next)) => [line] + LinesFrom(s, next)
  }

  predicate NonEmptyLine(line: string) {
    line != ""
  }

  /** The position a cycle starts reading at: 0 after truncation, the saved one otherwise. */
  function StartOffset(length: nat, position: nat, fileLength: nat): nat {
    if length < fileLength then 0 else position
  }

  /** The lines a cycle delivers: the non-empty lines from the start offset to the end. */
  function Delivered(s: string, start: nat): seq<string> {
    Where(LinesFrom(s, start), NonEmptyLine)
  }

  /** The delivered lines cut into blocks: full blocks of `n`, then the rest if any. */
  function Chunks(xs: seq<string>, n: nat): (r: seq<seq<string>>)
    requires n > 0
    decreases |xs|
  {
    if xs == [] then []
    else if |xs| <= n then [xs]
    else [xs[..n]] + Chunks(xs[n..], n)
  }

  /** `InvokeBlockNewLinesEvent`'s percentage: 100 for an empty file, otherwise
      `100 * position / fileLength` in integer division. */
  function Progress(fileLength: nat, pos: nat): (r: int)
    ensures fileLength == 0 ==> r == 100
    ensures r >= 0
  {
    if fileLength == 0 then 100 else 100 * pos / fileLength
  }

  /** One `BlockNewLines` event: the lines and the progress. */
  datatype Block = Block(lines: seq<string>, progress: int)

  function BlockLines(blocks: seq<Block>): (r: seq<seq<string>>)
    ensures |r| == |blocks|
  {
    seq(|blocks|, i requires 0 <= i < |blocks| => blocks[i].lines)
  }

  function Max(a: nat, b: nat): nat {
    if a < b then b else a
  }

  /** What one read cycle on `content` from the cursor (`position`, `fileLength`) yields:
      whether the file was taken as recreated, the blocks in delivery order, and the new
      position. The recreation event precedes every block of the cycle. */
  predicate CycleResult(content: string, position: nat, fileLength: nat,
                        recreated: bool, blocks: seq<Block>, newPosition: nat)
  {
    var start := StartOffset(|content|, position, fileLength);
    && recreated == (|content| < fileLength)
    && BlockLines(blocks) == Chunks(Delivered(content, start), LineBlockSize)
    && (forall i :: 0 <= i < |blocks| ==> 0 <= blocks[i].progress <= 100)
    && (forall i, j :: 0 <= i < j < |blocks| ==> blocks[i].progress <= blocks[j].progress)
    && (blocks != [] && |blocks[|blocks| - 1].lines| < LineBlockSize ==> blocks[|blocks| - 1].progress == 100)
    && newPosition == Max(start, |content|)
  }

  // ---------------------------------------------------------------------------------------
  // The read loop

  lemma LinesFromStep(s: string, pos: nat)
    requires pos < |s|
    ensures LinesFrom(s, pos) == [ReadLine(s, pos).value.0] + LinesFrom(s, ReadLine(s, pos).value.1)
  {
  }

  lemma FlattenSnoc(bs: seq<seq<string>>, b: seq<string>)
    ensures Flatten(bs + [b]) == Flatten(bs) + b
  {
    assert (bs + [b])[..|bs|] == bs;
  }

  lemma BlockLinesSnoc(blocks: seq<Block>, b: Block)
    ensures BlockLines(blocks + [b]) == BlockLines(blocks) + [b.lines]
  {
  }

  /** Full blocks followed by a short rest are exactly the chunks of their concatenation. */
  lemma {:induction false} ChunksOfFull(bs: seq<seq<string>>, rest: seq<string>, n: nat)
    requires n > 0 && |rest| < n
    requires forall i :: 0 <= i < |bs| ==> |bs[i]| == n
    ensures Chunks(Flatten(bs) + rest, n) == bs + (if rest == [] then [] else [rest])
  {
    if bs == [] {
      assert Flatten(bs) + rest == rest;
    } else {
      var b := bs[0];
      var tail := bs[1..];
      assert bs == [b] + tail;
      FlattenConcat([b], tail);
      assert Flatten([b]) == b by {
        assert [b][..0] == [];
      }
      var xs := Flatten(bs) + rest;
      assert xs == b + (Flatten(tail) + rest);
      assert xs[..n] == b;
      assert xs[n..] == Flatten(tail) + rest;
      ChunksOfFull(tail, rest, n);
    }
  }

  lemma ProgressBounds(fileLength: nat, pos: nat)
    requires pos <= fileLength
    ensures 0 <= Progress(fileLength, pos) <= 100
  {
    if fileLength > 0 {
      assert 100 * pos <= 100 * fileLength;
      DivBound(100 * pos, fileLength, 100);
    }
  }

  lemma DivBound(x: nat, d: nat, q: nat)
    requires d > 0 && x <= q * d
    ensures x / d <= q
  {
  }

  lemma ProgressMonotone(fileLength: nat, p: nat, q: nat)
    requires p <= q
    ensures Progress(fileLength, p) <= Progress(fileLength, q)
  {
    if fileLength > 0 {
      DivMonotone(100 * p, 100 * q, fileLength);
    }
  }

  lemma DivMonotone(x: nat, y: nat, d: nat)
    requires x <= y && d > 0
    ensures x / d <= y / d
  {
    var qx, qy := x / d, y / d;
    assert qx * d <= x;
    assert y < (qy + 1) * d;
    MulCancel(qx, qy + 1, d);
  }

  lemma MulCancel(a: int, b: int, d: nat)
    requires d > 0 && a * d < b * d
    ensures a < b
  {
    if a >= b {
      MulMonotone(b, a, d);
    }
  }

  lemma MulMonotone(a: int, b: int, d: nat)
    requires a <= b
    ensures a * d <= b * d
  {
    assert b * d == a * d + (b - a) * d;
  }

  lemma ProgressAtEnd(fileLength: nat)
    ensures Progress(fileLength, fileLength) == 100
  {
  }

  /** Progress values taken at ascending positions within the file are percentages in
      ascending order. */
  lemma {:induction false} ProgressSorted(fileLength: nat, blocks: seq<Block>, at: seq<nat>)
    requires |at| == |blocks|
    requires forall i :: 0 <= i < |blocks| ==> blocks[i].progress == Progress(fileLength, at[i])
    requires forall i :: 0 <= i < |at| ==> at[i] <= fileLength
    requires forall i, j :: 0 <= i < j < |at| ==> at[i] <= at[j]
    ensures forall i :: 0 <= i < |blocks| ==> 0 <= blocks[i].progress <= 100
    ensures forall i, j :: 0 <= i < j < |blocks| ==> blocks[i].progress <= blocks[j].progress
  {
    forall i | 0 <= i < |blocks| ensures 0 <= blocks[i].progress <= 100 {
      ProgressBounds(fileLength, at[i]);
    }
    forall i, j | 0 <= i < j < |blocks| ensures blocks[i].progress <= blocks[j].progress {
      ProgressMonotone(fileLength, at[i], at[j]);
    }
  }

  /** Full blocks, each with the position its progress was taken at. */
  predicate Batched(blocks: seq<Block>, at: seq<nat>, length: nat, pos: nat) {
    && |at| == |blocks|
    && (forall i :: 0 <= i < |blocks| ==> |blocks[i].lines| == LineBlockSize)
    && (forall i :: 0 <= i < |blocks| ==> blocks[i].progress == Progress(length, at[i]))
    && (forall i :: 0 <= i < |at| ==> at[i] <= pos && at[i] <= length)
    && (forall i, j :: 0 <= i < j < |at| ==> at[i] <= at[j])
  }

  /** The body of the read loop for one line read, the stream now at `pos`: a non-empty line
      joins the pending lines, and 500 pending lines are flushed as a block. */
  method Accept(blocks: seq<Block>, lines: seq<string>, line: string, length: nat, pos: nat,
                ghost at: seq<nat>, ghost before: nat)
    returns (blocks': seq<Block>, lines': seq<string>, ghost at': seq<nat>)
    requires |lines| < LineBlockSize && before <= pos <= length
    requires Batched(blocks, at, length, before)
    ensures Flatten(BlockLines(blocks')) + lines' ==
      Flatten(BlockLines(blocks)) + lines + (if line != "" then [line] else [])
    ensures |lines'| < LineBlockSize && Batched(blocks', at', length, pos)
  {
    blocks', lines', at' := blocks, lines, at;
    if line != "" {
      lines' := lines' + [line];
      if |lines'| >= LineBlockSize {
        BlockLinesSnoc(blocks', Block(lines', Progress(length, pos)));
        FlattenSnoc(BlockLines(blocks'), lines');
        blocks' := blocks' + [Block(lines', Progress(length, pos))];
        at' := at' + [pos];
        lines' := [];
      }
    }
  }

  /** After the loop: the pending lines, if any, are flushed with the stream at its end. */
  method FinalFlush(blocks: seq<Block>, lines: seq<string>, length: nat, pos: nat, ghost at: seq<nat>)
    returns (blocks': seq<Block>)
    requires |lines| < LineBlockSize && Batched(blocks, at, length, pos)
    requires lines != [] ==> pos == length
    ensures BlockLines(blocks') == Chunks(Flatten(BlockLines(blocks)) + lines, LineBlockSize)
    ensures forall i :: 0 <= i < |blocks'| ==> 0 <= blocks'[i].progress <= 100
    ensures forall i, j :: 0 <= i < j < |blocks'| ==> blocks'[i].progress <= blocks'[j].progress
    ensures blocks' != [] && |blocks'[|blocks'| - 1].lines| < LineBlockSize ==> blocks'[|blocks'| - 1].progress == 100
  {
    ChunksOfFull(BlockLines(blocks), lines, LineBlockSize);
    blocks' := blocks;
    ghost var at' := at;
    if |lines| > 0 {
      ProgressAtEnd(length);
      BlockLinesSnoc(blocks, Block(lines, Progress(length, pos)));
      blocks' := blocks + [Block(lines, Progress(length, pos))];
      at' := at + [pos];
    }
    ProgressSorted(length, blocks', at');
  }

  /** The `ReadToEndLine` algorithm. `fileLength` is the length the previous cycle saw;
      the stream's length now is `|content|`. */
  method ReadCycle(content: string, position: nat, fileLength: nat)
    returns (recreated: bool, blocks: seq<Block>, newPosition: nat)
    ensures CycleResult(content, position, fileLength, recreated, blocks, newPosition)
  {
    var length := |content|;
    recreated := length < fileLength;
    var start := if recreated then 0 else position;
    var lines;
    ghost var at;
    blocks, lines, newPosition, at := ReadLines(content, start);
    blocks := FinalFlush(blocks, lines, length, newPosition, at);
  }

  /** Reading one line delivers it, unless it is empty, ahead of what the rest delivers. */
  lemma DeliveredStep(s: string, pos: nat)
    requires pos < |s|
    ensures var (line, next) := ReadLine(s, pos).value;
      Delivered(s, pos) == (if line != "" then [line] else []) + Delivered(s, next)
  {
    var (line, next) := ReadLine(s, pos).value;
    LinesFromStep(s, pos);
    WhereConcat([line], LinesFrom(s, next), NonEmptyLine);
    assert Where([line], NonEmptyLine) == if line != "" then [line] else [] by {
      WhereSnoc([], line, NonEmptyLine);
    }
  }

  /** The read loop: every line from `start` to the end of the stream, the non-empty ones
      collected and flushed in full blocks; `lines` holds the ones still pending. */
  method ReadLines(content: string, start: nat)
    returns (blocks: seq<Block>, lines: seq<string>, pos: nat, ghost at: seq<nat>)
    ensures Flatten(BlockLines(blocks)) + lines == Delivered(content, start)
    ensures |lines| < LineBlockSize && Batched(blocks, at, |content|, pos)
    ensures pos == Max(start, |content|) && (lines != [] ==> pos == |content|)
  {
    var length := |content|;
    pos := start;
    lines := [];
    blocks := [];
    ghost var delivered: seq<string> := [];
    at := [];
    while true
      invariant start <= pos && (pos <= length || pos == start)
      invariant Delivered(content, start) == delivered + Delivered(content, pos)
      invariant Flatten(BlockLines(blocks)) + lines == delivered
      invariant |lines| < LineBlockSize && Batched(blocks, at, length, pos)
      invariant lines != [] ==> pos <= length
      decreases if pos <= length then length - pos else 0
    {
      var r := ReadLine(content, pos);
      if r.None? {
        break;
      }
      var line := r.value.0;
      DeliveredStep(content, pos);
      ghost var added := if line != "" then [line] else [];
      Assoc(delivered, added, Delivered(content, r.value.1));
      delivered := delivered + added;
      blocks, lines, at := Accept(blocks, lines, line, length, r.value.1, at, pos);
      pos := r.value.1;
    }
    assert Delivered(content, pos) == [];
  }

  // ---------------------------------------------------------------------------------------
  // Properties of a cycle

  /** The blocks hold the delivered lines in order, none lost or repeated; every block has
      between 1 and `n` lines, and all but the last exactly `n`. */
  lemma {:induction false} ChunksShape(xs: seq<string>, n: nat)
    requires n > 0
    ensures Flatten(Chunks(xs, n)) == xs
    ensures forall i :: 0 <= i < |Chunks(xs, n)| ==> 0 < |Chunks(xs, n)[i]| <= n
    ensures forall i :: 0 <= i < |Chunks(xs, n)| - 1 ==> |Chunks(xs, n)[i]| == n
    decreases |xs|
  {
    if xs != [] {
      if |xs| <= n {
        assert Chunks(xs, n) == [xs];
        assert [xs][..0] == [];
      } else {
        var rest := Chunks(xs[n..], n);
        ChunksShape(xs[n..], n);
        FlattenConcat([xs[..n]], rest);
        assert [xs[..n]][..0] == [];
        assert xs[..n] + xs[n..] == xs;
      }
    }
  }

  /** Every delivered line is non-empty and holds no line break. */
  lemma DeliveredLines(s: string, start: nat)
    ensures forall i :: 0 <= i < |Delivered(s, start)| ==> Delivered(s, start)[i] != ""
    ensures forall i, j :: 0 <= i < |Delivered(s, start)| && 0 <= j < |Delivered(s, start)[i]| ==>
      !IsBreak(Delivered(s, start)[i][j])
  {
    LinesHaveNoBreaks(s, start);
    WhereMembers(LinesFrom(s, start), NonEmptyLine);
  }

  lemma {:induction false} LinesHaveNoBreaks(s: string, pos: nat)
    ensures forall i, j :: 0 <= i < |LinesFrom(s, pos)| && 0 <= j < |LinesFrom(s, pos)[i]| ==>
      !IsBreak(LinesFrom(s, pos)[i][j])
    decreases |s| - pos
  {
    if pos < |s| {
      LinesFromStep(s, pos);
      LinesHaveNoBreaks(s, ReadLine(s, pos).value.1);
    }
  }

  /** A cycle over a file that has not changed since the last one delivers nothing, does not
      report recreation and keeps the position. */
  lemma UnchangedFileQuiet(content: string, recreated: bool, blocks: seq<Block>, newPosition: nat)
    requires CycleResult(content, |content|, |content|, recreated, blocks, newPosition)
    ensures !recreated && blocks == [] && newPosition == |content|
  {
    assert Delivered(content, |content|) == [];
    assert |BlockLines(blocks)| == 0;
  }

  /** The first cycle of a watcher, whose saved length is 0, never reports recreation and reads
      from the start of the file. */
  lemma FirstCycleFromStart(content: string, recreated: bool, blocks: seq<Block>, newPosition: nat)
    requires CycleResult(content, 0, 0, recreated, blocks, newPosition)
    ensures !recreated && BlockLines(blocks) == Chunks(Delivered(content, 0), LineBlockSize)
    ensures newPosition == |content|
  {
  }

  /** After truncation the cycle rereads the whole file. */
  lemma TruncatedRereads(content: string, position: nat, fileLength: nat, recreated: bool,
                         blocks: seq<Block>, newPosition: nat)
    requires |content| < fileLength
    requires CycleResult(content, position, fileLength, recreated, blocks, newPosition)
    ensures recreated && BlockLines(blocks) == Chunks(Delivered(content, 0), LineBlockSize)
    ensures newPosition == |content|
  {
  }

  /** A line read before position `k`, where the stream had a line feed, is the same whether
      the stream ended at `k` or goes on. */
  lemma ReadLinePrefix(s: string, k: nat, pos: nat)
    requires pos < k <= |s| && s[k - 1] == '\n'
    ensures ReadLine(s[..k], pos) == ReadLine(s, pos)
    ensures ReadLine(s, pos).value.1 <= k
  {
    var e := LineEnd(s, pos);
    LineEndPrefix(s, k, pos);
    assert s[..k][pos..e] == s[pos..e];
    assert AfterBreak(s[..k], e) == AfterBreak(s, e) by {
      assert s[..k][e] == s[e];
      if e + 1 < k {
        assert s[..k][e + 1] == s[e + 1];
      }
    }
  }

  lemma {:induction false} LineEndPrefix(s: string, k: nat, pos: nat)
    requires pos < k <= |s| && s[k - 1] == '\n'
    ensures LineEnd(s[..k], pos) == LineEnd(s, pos) < k
    decreases k - pos
  {
    if !IsBreak(s[pos]) {
      assert pos + 1 < k;
      LineEndPrefix(s, k, pos + 1);
    }
  }

  /** Growth past a line feed loses and repeats nothing: what one cycle reads from `pos` up to
      the old end `k`, followed by what the next reads from `k`, is what a single cycle over the
      grown file reads from `pos`. */
  lemma {:induction false} AppendedLines(s: string, k: nat, pos: nat)
    requires pos <= k <= |s| && (k == 0 || s[k - 1] == '\n')
    ensures LinesFrom(s[..k], pos) + LinesFrom(s, k) == LinesFrom(s, pos)
    decreases k - pos
  {
    if pos < k {
      var a := s[..k];
      ReadLinePrefix(s, k, pos);
      var (line, next) := ReadLine(s, pos).value;
      LinesFromStep(a, pos);
      LinesFromStep(s, pos);
      AppendedLines(s, k, next);
      Assoc([line], LinesFrom(a, next), LinesFrom(s, k));
    } else {
      assert LinesFrom(s[..k], pos) == [];
    }
  }

  /** A line still being written when a cycle runs is delivered in two pieces: "ab" in that
      cycle and "c" in the next once the writer has finished "abc\n". */
  lemma PartialLineSplit()
    ensures LinesFrom("ab", 0) == ["ab"]
    ensures LinesFrom("abc\n", 2) == ["c"]
    ensures LinesFrom("abc\n", 0) == ["abc"]
  {
    assert LineEnd("ab", 0) == 2 by {
      assert LineEnd("ab", 2) == 2;
      assert LineEnd("ab", 1) == 2;
    }
    assert LinesFrom("ab", 2) == [];
    assert "ab"[0..2] == "ab";
    var t := "abc\n";
    assert LineEnd(t, 2) == 3 by {
      assert LineEnd(t, 3) == 3;
    }
    assert AfterBreak(t, 3) == 4;
    assert LinesFrom(t, 4) == [];
    assert t[2..3] == "c";
    assert LineEnd(t, 0) == 3 by {
      assert LineEnd(t, 3) == 3;
      assert LineEnd(t, 2) == 3;
      assert LineEnd(t, 1) == 3;
    }
    assert t[0..3] == "abc";
  }
}
