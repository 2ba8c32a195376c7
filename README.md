# DirectumLogViewer core, modelled in Dafny

DirectumLogViewer shows JSON-per-line log files of the Directum RX platform in a grid. This
project models the core of the viewer and proves properties of that model.

- **The converter** (`LogReader/Converter.cs`) turns one JSON log line into a `LogLine` record:
  - the typed fields `pid`, `tr`, `t`, `l`, `lg`, `un`, `tn` and `v`;
  - a free-text full message, rendered from the remaining properties by the column formatter
    `TsvFormat` (fixed widths for `pid`, `l`, `lg` and `tr`; exception values moved to the end);
  - the message, which is the first line of the full message.

  The same formatter turns a record back into an export line for the clipboard.
- **The two watchers** (`LogReader/LogWatcher.cs` and `LogReader/RemoteLogWatcher.cs`) keep a
  read cursor (`position`, `fileLength`) between read cycles. Each cycle:
  - detects truncation;
  - skips empty lines;
  - delivers the other lines in blocks of at most 500, each with a progress percentage.
- **The main window** (`LogViewer/MainWindow.xaml.cs`), in these parts:
  - the line filter (`NeedShowLine`, `SetFilter`);
  - the way new blocks extend the full and filtered lists (`OnBlockNewLines`);
  - the detail text of the selected record;
  - the log-file whitelist (`FindLogs`);
  - the page-up/page-down jump.
- **The SSH host entry** (`SshConfigParser/SshHost.cs`): a property bag behind an indexer, with
  typed accessors and their defaults.

Modules, one per file:

| module | file | what it holds |
|---|---|---|
| `Wrappers` | `wrappers.dfy` | `Option`, the nullable string `NString`, `Outcome` |
| `Seqs` | `seqs.dfy` | the `Where` filter and `Flatten` |
| `Text` | `text.dfy` | the .NET string operations used, written out |
| `Dict` | `dict.dfy` | the insertion-ordered `Dictionary<string, string>` as an association list |
| `Formatter` | `formatter.dfy` | `TsvFormat` |
| `Converter` | `converter.dfy` | record conversion and export |
| `Incremental` | `incremental.dfy` | the read cycle both watchers share |
| `Watcher` | `log_watcher.dfy` | `LogWatcher` |
| `RemoteWatcher` | `remote_log_watcher.dfy` | `RemoteLogWatcher` |
| `Viewer` | `viewer.dfy` | the main-window logic |
| `Ssh` | `ssh_host.dfy` | `SshHost` |

Code that builds results by loops and in-place updates is modelled as methods with loop
invariants, each proved against a specification function. This covers `TsvFormat`,
`ParseLogLine`, `ConvertToObject`, `ConvertObjectToDict`, `ConvertLinesToObjects`,
`ReadToEndLine`, `OnBlockNewLines` and the detail text. Objects whose fields the source
updates are classes: `LogWatcher`, `RemoteLogWatcher`, the main window's list state
`LogView`, and `SshHost`.

Calls into libraries that are not part of this model become function-valued parameters:
- `Converter.Platform` stands for the JSON parser, `DateTime.Parse` and the time formatter.
- `Viewer.TextOps` stands for the regular-expression engine, the case-insensitive comparisons
  and `ToLower`.

The file system, the SFTP connection and the clock are modelled as follows:
- a read cycle is given the file's current content;
- `FindLogs` is given the flag for whether the directory exists, the files found, the machine
  name and the date.

Where the code does something a reader might not expect, the model follows the code:
- **A line that is not JSON.** `ParseLogLine` catches the parse failure and returns
  `{ "": line }`. So such a line's message is the first line of the raw text, not the whole
  line. The outer `catch` of `ConvertToObject`, which keeps the whole line as the message, is
  reached only when `DateTime.Parse` throws (`UnparsableLine`, `BadTimeFallback`).
- **"All" in the tenant and level filters.** `SetFilter` compares a filter with "All" by
  ordinal equality. `NeedShowLine` compares them ignoring case. The model keeps both, and
  `NoFilterHidesNothing` shows that the two agree whenever `SetFilter` switches filtering off.
- **A timer period that is not positive.** `StartWatch` sets `IsWatching` before the timer's
  `Interval` setter throws. The watcher therefore stays marked as watching without a timer.
  The message `InvalidInterval` stands for the platform's exception text.
- **A partial last line.** The last line of a file without a terminator is delivered as it
  is. If the writer then finishes it, the next cycle delivers the rest as a separate line
  (`PartialLineSplit`). When the file grows only after a line feed, nothing is lost or
  repeated (`AppendedLines`).

## Model

| member | source | states |
|---|---|---|
| Text.FitWidth | LogReader/Converter.cs:157-162 | a fixed-width column is exactly `width` long: a longer value keeps its last `width` characters, a shorter one is space-padded on the left; characters are Unicode scalar values (see Left out) |
| Text.StripBreaks | LogReader/Converter.cs:244 | the two `Replace` calls delete exactly the line-break characters, keeping the rest in order |
| Text.FirstLine | LogReader/Converter.cs:93 | a prefix of the text with no line break, followed in the text by a break or by nothing |
| Text.SplitBreaks | LogReader/Converter.cs:93 | the first piece of the split is the first line, and no piece holds a break |
| Text.SplitBreaksCount | LogViewer/MainWindow.xaml.cs:147 | the split yields one piece more than the text has line-break characters |
| Text.Trim | LogViewer/MainWindow.xaml.cs:148 | the result is the slice of the text between its leading and its trailing white space: everything cut off on either side is white space, and the result neither starts nor ends with it |
| Text.FileName | LogViewerWpf/LogFile.cs:18-22 | the name is the suffix after the last directory separator and holds none |
| Text.FileNameIdempotent | LogViewerWpf/LogFile.cs:18-22 | a file name is its own file name |
| Text.FileNameWithoutExtension | LogViewer/MainWindow.xaml.cs:153 | the file name when it has no '.'; otherwise the prefix that ends before its last '.' |
| Text.ReplaceAbsent | LogReader/Converter.cs:306 | replacing a pattern that does not occur changes nothing |
| Text.JoinLength | LogReader/Converter.cs:244 | a join is the parts' total length plus one separator per gap |
| Dict.Lookup | LogReader/Converter.cs:43-45 | `ContainsKey` fails exactly when no entry has the key; otherwise the indexer returns that entry's value |
| Dict.PutLookup | LogReader/Converter.cs:211 | after indexer assignment the key reads back the value and every other key reads as before |
| Dict.PutUnique | LogReader/Converter.cs:211 | indexer assignment keeps keys unique |
| Dict.RemoveLookup | LogReader/Converter.cs:46 | after `Remove` the key is absent and every other key keeps its value |
| Dict.WithoutMembers | LogReader/Converter.cs:43-89 | what is left after the removals are entries of the dictionary without the removed keys |
| Dict.WithoutUnique | LogReader/Converter.cs:43-89 | removals keep keys unique |
| Formatter.TsvFormat | LogReader/Converter.cs:142-178 | the loop with its `firstElement` flag and `onNewLine` buffer yields `Format`: the inline columns one space apart, then the deferred values verbatim |
| Formatter.Format | LogReader/Converter.cs:142-178 | the declarative definition of `TsvFormat`'s line: the inline columns joined by one space, then the deferred values verbatim; `TsvFormat` is proved equal to it, and `FormatAppendDeferred`, `FormatAppendInline`, `FormatAllInline` and `CellWidth` state its properties |
| Formatter.FormatAppendDeferred | LogReader/Converter.cs:151-155 | a value beginning with a line feed is appended verbatim at the very end, whatever precedes it |
| Formatter.FormatAppendInline | LogReader/Converter.cs:164-171 | another inline value becomes the last column, one space after the previous one (none if it is the first), with the trailing region after it |
| Formatter.FormatAllInline | LogReader/Converter.cs:142-178 | without multi-line values the line is the columns joined by single spaces |
| Formatter.CellWidth | LogReader/Converter.cs:15-29 | a key with a width fills exactly that many characters (its tail, or left-padded), and `lg` is followed by " \|" |
| Formatter.CellVerbatim | LogReader/Converter.cs:157-171 | a key without a width is emitted verbatim |
| Formatter.FormatFixedWidthRow | LogReader/Converter.cs:142-178 | a row of fixed-width single-line columns is exactly as long as the widths, the postfixes and the gaps between columns |
| Formatter.FormatUnnamed | LogReader/Converter.cs:218 | the fallback dictionary `{ "": s }` formats as `s` itself |
| Converter.GetJsonValues | LogReader/Converter.cs:227-230 | a parsed result has distinct names, since `ToDictionary` throws on a repeat, and is the parser's own (see Left out for the parser) |
| Converter.StrippedTexts | LogReader/Converter.cs:244 | one text per token: the token's text with every '\r' and '\n' deleted, so none holds a line break |
| Converter.ConvertTokens | LogReader/Converter.cs:239-248 | `Convert`: the result begins with the prefix and ends with the postfix; `ConvertTokensPlain` gives the middle, the texts joined by ", " |
| Converter.ConvertArguments | LogReader/Converter.cs:255-258 | the arguments render in parentheses, "(" first and ")" last, with no line break anywhere |
| Converter.ConvertCustomProperties | LogReader/Converter.cs:265-268 | the custom properties render in brackets, "[" first and "]" last, with no line break anywhere |
| Converter.ConvertSpan | LogReader/Converter.cs:275-278 | the span renders as "Span(" followed by its values and ")", with no line break anywhere |
| Converter.ConvertException | LogReader/Converter.cs:285-310 | the rendering of an exception always begins with a line feed, which is what defers it to the end of the full message (`RenderedDeferred`) |
| Converter.RenderValue | LogReader/Converter.cs:190-208 | the `switch` on the key: `st` and `ex` values begin with a line feed; `RenderedDeferred` adds that no other rendering holds a line break |
| Converter.FindProperty | LogReader/Converter.cs:288-290 | null iff no nested property has this name; otherwise the value of the first that does |
| Converter.ParseLogLine | LogReader/Converter.cs:180-220 | the elements are the renderings of the properties, in document order, with empty renderings dropped; or `{ "": line }` when the line does not parse |
| Converter.RenderedKeys | LogReader/Converter.cs:187-212 | an element key is always the name of some property |
| Converter.RenderedLookup | LogReader/Converter.cs:187-212 | with distinct names, the element under a property's name is its rendering by the `switch`, and absent when that rendering is empty |
| Converter.RenderedDeferred | LogReader/Converter.cs:190-208 | only `st` and `ex` values begin with a line feed (`ConvertException`), and every other rendering is a single line |
| Converter.ConvertTokensPlain | LogReader/Converter.cs:239-278 | for break-free tokens, `Convert` is the prefix, the token texts joined by ", ", then the postfix |
| Converter.TakeField | LogReader/Converter.cs:43-47 | one `ContainsKey`/indexer/`Remove` step takes the value the parsed line held under the key and removes that key alone |
| Converter.TakeTypedFields | LogReader/Converter.cs:40-89 | the typed keys are moved to their fields in source order, and the rest is the dictionary without them; this fails exactly when `DateTime.Parse` rejects `t` |
| Converter.TakeTrailingFields | LogReader/Converter.cs:61-89 | the five keys after the time are moved to level, logger, user, tenant and version |
| Converter.BuildLogLine | LogReader/Converter.cs:40-101 | the record built from the parsed elements, or the fallback record when the time does not parse |
| Converter.ConvertToObject | LogReader/Converter.cs:36-102 | the record is `ConvertSpec` of the line |
| Converter.ConvertSpec | LogReader/Converter.cs:36-102 | when `DateTime.Parse` rejects `t`, the record holds the raw line as both messages and no typed field; otherwise each typed field holds its key's element and the message is the first line of the full message |
| Converter.ConvertLinesToObjects | LogReader/Converter.cs:104-114 | a fresh array with one converted record per line, at that line's index |
| Converter.ConvertAll | LogReader/Converter.cs:104-114 | one converted record per line, in order, each `ConvertSpec` of its line |
| Converter.Stored | LogReader/Converter.cs:210-211 | a rendering is stored exactly when it is not empty, and what is stored is the rendering itself |
| Converter.ConvertedFields | LogReader/Converter.cs:43-91 | each string-typed field holds the element under its key, and the full message is the format of the remaining elements |
| Converter.TypedFieldFromProperty | LogReader/Converter.cs:43-89 | for a well-formed line, each of `pid`, `tr`, `l`, `lg`, `un`, `tn` and `v` holds the rendering of that property, or null when that rendering is empty |
| Converter.TypedFieldAbsent | LogReader/Converter.cs:43-89 | a typed key the line lacks leaves its field null |
| Converter.BadTimeFallback | LogReader/Converter.cs:55-59 | a `t` that `DateTime.Parse` rejects turns the whole record into the fallback `{ Message = line, FullMessage = line }` |
| Converter.UnparsableLine | LogReader/Converter.cs:216-219 | a line that is not a JSON object with distinct names has the raw line as its full message, its first line as its message, and no typed field |
| Converter.MessageIsFirstLine | LogReader/Converter.cs:93-94 | the message is the full message up to its first line break |
| Converter.UntypedKeyIsPlain | LogReader/Converter.cs:15-29 | a key that is not typed has no width and no postfix |
| Converter.UntypedFormat | LogReader/Converter.cs:142-178 | entries without typed keys format as the single-line values joined by spaces, then the multi-line ones |
| Converter.FullMessageVerbatim | LogReader/Converter.cs:91 | the full message is the remaining values verbatim: the single-line ones joined by spaces, then the exception values |
| Converter.Optional | LogReader/Converter.cs:124-137 | an optional entry is added exactly when its value is neither null nor empty, under its own key and holding that value |
| Converter.AddOptional | LogReader/Converter.cs:124-125 | the conditional `Add` appends the entry exactly when the value is not empty |
| Converter.AddOptionalFields | LogReader/Converter.cs:124-137 | the five conditional `Add` calls append the tenant, version, user, process and trace entries that are set, in that order |
| Converter.OptionalFieldsUnique | LogReader/Converter.cs:124-137 | the conditional entries have distinct keys, all of them optional keys |
| Converter.ConvertObjectToDict | LogReader/Converter.cs:116-140 | the export has time, level, logger and full message, in that order, then tenant, version, user, process and trace when set; null level or logger is corrected to empty (see Findings) |
| Converter.Export | LogReader/Converter.cs:116-140 | the corrected export: four to nine entries, keyed `t`, `l`, `lg`, `mt` first, then only optional keys (`ExportLookup` and `ExportUnique` say which and that they are distinct) |
| Converter.OptionalFieldsLookup | LogReader/Converter.cs:124-137 | an optional field reads back from the optional entries exactly when it is not empty |
| Converter.ExportLookupFixed | LogReader/Converter.cs:119-122 | the export always holds the formatted time under `t` and the full message under `mt` |
| Converter.ExportLookup | LogReader/Converter.cs:124-137 | the export holds each optional field exactly when it is not empty |
| Converter.ExportUnique | LogReader/Converter.cs:118-137 | the export keys are distinct, so none of the `Add` calls throws |
| Converter.ExportAsWritten | LogReader/Converter.cs:116-140 | what `ConvertObjectToDict` returns as written: the level and the logger are the second and third entries even when null; `CopyAsWrittenThrows` states the consequence |
| Converter.CopyLineAsWritten | LogViewer/MainWindow.xaml.cs:560-570 | the copy command as written: `TsvFormat` of the as-written export, or a throw; `CopyAsWrittenThrows` proves it throws exactly for a null level or logger |
| Converter.CopyLine | LogViewer/MainWindow.xaml.cs:560-570 | the corrected copy of one record, the export formatted as a log line; it begins with the formatted time (`CopyAgrees` ties it to the copy as written) |
| Converter.ExportKeepsFields | LogReader/Converter.cs:116-140 | a converted record exports each optional property of its line with that property's rendering |
| Converter.NonNull | LogReader/Converter.cs:149-151 | `TsvFormat` fails exactly when some value is null; otherwise it reads the same entries |
| Converter.CopyAsWrittenThrows | LogReader/Converter.cs:116-151 | as written, formatting the export of a record throws exactly when its level or logger is null |
| Converter.CopyOfUnparsableThrows | LogViewer/MainWindow.xaml.cs:560-570 | as written, copying the record of any line that does not parse throws |
| Converter.CopyAgrees | LogReader/Converter.cs:116-178 | wherever the code as written does not throw, it copies the same line as the corrected export |
| Converter.CopyLineStartsWithTime | LogReader/Converter.cs:119 | a copied line begins with the formatted time |
| Incremental.LineEnd | LogReader/LogWatcher.cs:98 | the first line break at or after the position, or the end of the stream |
| Incremental.ReadLine | LogReader/LogWatcher.cs:98 | null exactly at the end of the stream; otherwise the text from the position up to the next line break or the end, and the position after that break, with "\r\n" as one break |
| Incremental.ChunksShape | LogReader/LogWatcher.cs:98-113 | the blocks hold the lines in order, none lost or repeated; each has 1 to 500 lines, and all but the last exactly 500 |
| Incremental.ProgressBounds | LogReader/LogWatcher.cs:140-144 | the progress of a position within the file lies between 0 and 100 |
| Incremental.Progress | LogReader/LogWatcher.cs:142 | 100 for an empty file, never negative; `ProgressBounds`, `ProgressMonotone` and `ProgressAtEnd` give the bounds, the order and the final 100 |
| Incremental.ProgressMonotone | LogReader/LogWatcher.cs:140-144 | a later position never reports less progress |
| Incremental.ProgressAtEnd | LogReader/LogWatcher.cs:142 | the end of the file reports 100, and an empty file does too |
| Incremental.ReadLines | LogReader/LogWatcher.cs:94-110 | the read loop delivers every non-empty line from the start offset: full blocks of 500 during the loop, the rest held back, with progress sorted and at most 100 |
| Incremental.FinalFlush | LogReader/LogWatcher.cs:112-114 | the held-back lines form a last block, whose progress is 100, only when there are any |
| Incremental.ReadCycle | LogReader/LogWatcher.cs:78-117 | one cycle satisfies `CycleResult`: recreation iff the file shrank; blocks are the 500-line chunks of the non-empty lines from the start offset; progress in 0..100, non-decreasing, and 100 on a short last block; the new position is the end |
| Incremental.DeliveredLines | LogReader/LogWatcher.cs:98-102 | every delivered line is non-empty and holds no line break |
| Incremental.UnchangedFileQuiet | LogReader/LogWatcher.cs:78-117 | a cycle over an unchanged file delivers nothing, reports no recreation and keeps the position |
| Incremental.FirstCycleFromStart | LogReader/LogWatcher.cs:60 | the first cycle never reports recreation and reads the whole file |
| Incremental.TruncatedRereads | LogReader/LogWatcher.cs:85-91 | after truncation the cycle reports recreation and rereads the file from the start |
| Incremental.ReadLinePrefix | LogReader/LogWatcher.cs:98 | a line already terminated reads the same whether or not the file grows after it |
| Incremental.AppendedLines | LogReader/LogWatcher.cs:96-114 | a cycle up to a line feed, then the next cycle from there, read what one cycle over the grown file reads |
| Incremental.PartialLineSplit | LogReader/LogWatcher.cs:98 | a line caught half-written is delivered in two pieces across two cycles |
| Watcher.LogWatcher.constructor | LogReader/LogWatcher.cs:42-61 | not watching, the notifier created, the cursor at zero |
| Watcher.LogWatcher.StartFileSystemWatcher | LogReader/LogWatcher.cs:67-73 | throws "Log file already watching" on a second call, otherwise starts watching; the cursor is untouched |
| Watcher.LogWatcher.ReadToEndLine | LogReader/LogWatcher.cs:78-117 | the cycle's result from the saved cursor; the new length is saved, the position moves to the end, and the cursor invariant `position == fileLength` is kept, for a file that does not grow during the cycle (see Left out) |
| Watcher.LogWatcher.Dispose | LogReader/LogWatcher.cs:149-156 | the notifier is released, and a second call changes nothing |
| RemoteWatcher.RemoteLogWatcher.constructor | LogReader/RemoteLogWatcher.cs:38-43 | not watching, no timer, the cursor at zero |
| RemoteWatcher.RemoteLogWatcher.StartWatch | LogReader/RemoteLogWatcher.cs:49-63 | throws on a second call; otherwise marks watching, then either fails on a non-positive period or starts a one-shot timer with that interval |
| RemoteWatcher.RemoteLogWatcher.ReadToEndLine | LogReader/RemoteLogWatcher.cs:68-107 | the same cycle as the local watcher, over the remote file's content |
| RemoteWatcher.RemoteLogWatcher.Dispose | LogReader/RemoteLogWatcher.cs:130-137 | the timer is released, and a second call changes nothing |
| Viewer.EmptyFilterShowsAll | LogViewer/MainWindow.xaml.cs:498-533 | without text and without a restricting tenant or level, every line is shown |
| Viewer.TextMatches | LogViewer/MainWindow.xaml.cs:498-519 | the text filter, defined as: no text shows everything; a text that is not a valid pattern shows nothing; otherwise the full message matches or contains it, or the trace, process id or level contains it; lemmas `InvalidPatternHidesAll` and `SubstringModeMatches` |
| Viewer.NeedShowLine | LogViewer/MainWindow.xaml.cs:498-533 | defined as the text filter, and a restricting tenant or level equal (ignoring case) to the line's; lemmas `EmptyFilterShowsAll`, `LevelFilterHidesNullLevel` and `NoFilterHidesNothing` |
| Viewer.NeedFilter | LogViewer/MainWindow.xaml.cs:539-541 | defined as: a text, or a tenant or level that is set and not exactly "All"; `NoFilterHidesNothing` relates it to `NeedShowLine` |
| Viewer.NoFilterHidesNothing | LogViewer/MainWindow.xaml.cs:535-556 | when `SetFilter` decides not to filter, `NeedShowLine` would have hidden no line either |
| Viewer.InvalidPatternHidesAll | LogViewer/MainWindow.xaml.cs:503-519 | text that is not a valid pattern hides every line, in substring mode too |
| Viewer.LevelFilterHidesNullLevel | LogViewer/MainWindow.xaml.cs:527-530 | a restricting level filter hides every line without a level |
| Viewer.SubstringModeMatches | LogViewer/MainWindow.xaml.cs:508-514 | in substring mode a line is shown iff its full message, trace, process id or level contains the text |
| Viewer.LogView.constructor | LogViewer/MainWindow.xaml.cs:49-55 | an empty full list, no filtered list and no view yet |
| Viewer.LogView.InitControls | LogViewer/MainWindow.xaml.cs:164-198 | both filters select "All" and the view exists; the lists are untouched |
| Viewer.LogView.SetFilter | LogViewer/MainWindow.xaml.cs:535-556 | nothing before `InitControls` has created the view; then the filtered list is the in-order selection of what `NeedShowLine` shows, or none when nothing needs filtering; it agrees with the controls |
| Viewer.AppendRecords | LogViewer/MainWindow.xaml.cs:384-395 | the full list gains every record in order; the filtered list, when there is one, gains exactly the records the filter shows, in order |
| Viewer.LogView.AppendLines | LogViewer/MainWindow.xaml.cs:384-395 | the block is appended in order, the filtered list gains the block's shown records, and the filtered list, if consistent with the filter, stays so |
| Viewer.LogView.OnBlockNewLines | LogViewer/MainWindow.xaml.cs:364-401 | the full list gains each line's converted record in order; the filtered list, when there is one, gains exactly the converted records the unchanged controls show; consistency with the filter is kept |
| Viewer.Header | LogViewer/MainWindow.xaml.cs:422-437 | the `+=` loop builds one "Key: value" line per non-empty field, in display order |
| Viewer.DetailText | LogViewer/MainWindow.xaml.cs:414-447 | null without a selection, otherwise the detail text: the header lines, then the full message, separated by a line feed when both exist |
| Viewer.Detail | LogViewer/MainWindow.xaml.cs:414-447 | the detail text, defined as the header lines and then the full message; `DetailText` is proved equal to it, and `DetailEndsWithMessage`, `DetailOfMessageOnly` and `HeaderLinesShape` state its shape |
| Viewer.HeaderLinesShape | LogViewer/MainWindow.xaml.cs:424-437 | each header line is "Key: value" plus a line feed, for a field that is not empty |
| Viewer.NoHeaderLines | LogViewer/MainWindow.xaml.cs:424-437 | without set fields there are no header lines |
| Viewer.DetailOfMessageOnly | LogViewer/MainWindow.xaml.cs:414-447 | a record with none of the labelled fields shows just its full message |
| Viewer.DetailEndsWithMessage | LogViewer/MainWindow.xaml.cs:439-445 | the detail text ends with the full message, preceded by a line feed when anything comes before it |
| Viewer.Whitelist | LogViewer/MainWindow.xaml.cs:147-150 | the whitelist entries are never empty |
| Viewer.Normalised | LogViewer/MainWindow.xaml.cs:147-148 | one entry per piece, in order: the piece trimmed, lower-cased, with `${machinename}` and `${shortdate}` replaced |
| Viewer.WhitelistEntries | LogViewer/MainWindow.xaml.cs:147-150 | every whitelist entry is the normalised form of a piece of the split setting, and every piece that normalises to a non-blank text is on the whitelist |
| Viewer.FindLogs | LogViewer/MainWindow.xaml.cs:136-156 | null exactly when the directory does not exist |
| Viewer.FindLogsKeeps | LogViewer/MainWindow.xaml.cs:152-155 | a found file is returned iff its lower-cased name without extension is on the whitelist |
| Viewer.SingleEntryWhitelist | LogViewer/MainWindow.xaml.cs:147-150 | a setting without breaks is a single entry, dropped when blank |
| Viewer.PageTargetProperties | LogViewer/MainWindow.xaml.cs:780-800 | the target is a row, lies in the requested direction at most one jump away, and moves unless already at that end |
| Viewer.PageTarget | LogViewer/MainWindow.xaml.cs:781-802 | nothing without a selection; otherwise a row index, below the row count when there are rows; `PageTargetProperties` gives the direction and the jump |
| Ssh.AsText | SshConfigParser/SshHost.cs:19 | `?.ToString()` is null exactly for null, and a string is its own text |
| Ssh.KeyInjective | SshConfigParser/SshHost.cs:17-84 | distinct named properties are stored under distinct keys |
| Ssh.Get | SshConfigParser/SshHost.cs:91-99 | the indexer returns the stored value, or null for an absent key |
| Ssh.PortOf | SshConfigParser/SshHost.cs:62-66 | the stored port, "22" when there is none |
| Ssh.IsRemoteOf | SshConfigParser/SshHost.cs:80-84 | the stored flag, true when there is none; the cast fails exactly on a stored string |
| Ssh.GetAfterSet | SshConfigParser/SshHost.cs:100 | after assignment the key reads back its value and other keys are unchanged |
| Ssh.SetNullReadsAbsent | SshConfigParser/SshHost.cs:100 | assigning null keeps the key but reads as absent |
| Ssh.PortDefault | SshConfigParser/SshHost.cs:62-66 | a set port reads back; a cleared or new one reads "22" |
| Ssh.IsRemoteRoundTrip | SshConfigParser/SshHost.cs:80-84 | the remote flag reads back what was assigned; it is on for a fresh host |
| Ssh.SshHost.constructor | SshConfigParser/SshHost.cs:89 | a new host has no properties |
| Ssh.SshHost.Item | SshConfigParser/SshHost.cs:93-99 | the indexer getter on the host's properties |
| Ssh.SshHost.SetItem | SshConfigParser/SshHost.cs:100 | the indexer setter changes that key alone |
| Ssh.SshHost.Text | SshConfigParser/SshHost.cs:17-75 | a string property is null exactly when nothing non-null is stored under its name, and a stored string reads as itself |
| Ssh.SshHost.PortValue | SshConfigParser/SshHost.cs:62-66 | the `Port` getter: the stored port text, "22" when null or absent is stored |
| Ssh.SshHost.SetText | SshConfigParser/SshHost.cs:17-75 | a string setter stores the text or null; the getter reads it back (the port defaults to "22") |
| Ssh.SshHost.Remote | SshConfigParser/SshHost.cs:80-84 | `IsRemote` is true by default and fails only on a stored string |
| Ssh.SshHost.SetRemote | SshConfigParser/SshHost.cs:83 | the `IsRemote` setter's value reads back |
| Ssh.SshHost.Keys | SshConfigParser/SshHost.cs:106 | the keys are exactly the stored properties' keys |
| Ssh.SshHost.Display | SshConfigParser/SshHost.cs:108 | `ToString` is the host's `Name` |

## Left out

- File and SFTP I/O, and the encodings:
  - A read cycle is given the whole current content, one character per byte.
  - The `StreamReader` decoding, a failure to open the file and a failure to connect are not
    modelled.
- Text.FitWidth: widths count Unicode scalar values, while `Length`, `Substring` and `PadLeft`
  (LogReader/Converter.cs:151, 157-162) count UTF-16 code units. A value outside the Basic
  Multilingual Plane is therefore padded or truncated differently from the source, which pads
  one space less per such character and can cut a surrogate pair in half.
- Buffered positions:
  - The source reports progress from `BaseStream.Position`. In the middle of a cycle that is the
    reader's buffer position, which runs ahead of the line just read. The model uses the position
    after the line, so intermediate percentages may be lower than the source's.
  - At the end of a cycle both equal the stream length, so the final block's progress (100) and
    the saved position agree with the source for a file that does not grow during the cycle.
- Watcher.LogWatcher.ReadToEndLine: the file is assumed not to grow while a cycle reads it. The
  source reads the length once (LogReader/LogWatcher.cs:84, 95) and then `ReadLine` reads to the
  live end of a shared stream. Text appended during the cycle is read in that cycle, the saved
  position (l.115) then exceeds the saved length, and the progress (l.142) can exceed 100. The
  model's cursor invariant `position == fileLength` and its progress bounds hide that case.
  RemoteWatcher.RemoteLogWatcher.ReadToEndLine is the same (LogReader/RemoteLogWatcher.cs:76, 88,
  105).
- Concurrency is not modelled:
  - `Parallel.ForEach` in `ConvertLinesToObjects` is modelled as a sequential loop. The result is
    the same, since each index is written once.
  - The `lock`, the file-system `Changed` handler `OnChange` (its last-write check and sleep), and
    the timer callback `OnTimedEvent`, which re-runs the cycle on a task and re-arms the timer,
    are left out.
  - The event handlers are modelled as the blocks a cycle returns. `FileReCreated` is the
    `recreated` flag, and it precedes every block.
- Incremental.ReadCycle: does not model that the consumer receives the same `List` object that
  is then cleared (`lines.Clear()`). A handler that kept the list would see it emptied; the model
  delivers values.
- 64-bit `long` positions and `long` percentages are unbounded integers. `100 * position` does not
  overflow for files below 92 PB.
- `LogLine.NumLine` is never assigned by the core, so it is not part of the record.
- The order of a .NET `Dictionary` after `Remove` followed by an insertion is undocumented. The
  core never inserts after removing, so the model's order-preserving removal covers every case
  that occurs.
- `DateTime` is an integer of ticks. Its parsing and formatting are parameters, and so are the
  JSON parser, the regular-expression engine, culture-aware case-insensitive comparison and
  `ToLower`.
- Converter.GetJsonValues: the JSON parser is a parameter that may return repeated names, and the
  model takes the `ToDictionary` failure on them to the fallback. Json.NET's `JObject.Parse`
  keeps only the last of repeated names by default, so that failure cannot arise through it; the
  model over-approximates the parser there.
- Viewer.NeedShowLine: the regex constructor's flags (`IgnoreCase`, `Singleline`) and match time-outs are
  inside the `regexValid`/`regexMatch` parameters.
- The user interface is not modelled:
  - grid binding, scrolling, focus moves, the progress bar, the status text, settings windows,
    file dialogs and the clipboard;
  - the `Dispatcher` marshalling around `OnBlockNewLines`.
- Viewer.PageTarget: `ViewportHeight` is a `double` truncated by `(int)`. The model takes the
  truncated row count as its input.
- The copy command's loop over several selected rows and `AppendLine`'s `Environment.NewLine` are
  not modelled. The model covers the line copied for one record.
- Ssh.SshHost.Keys: a set, since the enumeration order of `Dictionary.Keys` is not part of what
  the code relies on. `SshHost`'s `sftpClient` field is not part of this model.
- Viewer.AppendRecords: the records are added to two local lists that `AppendLines` assigns back
  after the loop, not to the bound collections one at a time. Nothing else runs on the dispatcher
  thread in between, so the lists at the end are the same.
- Several source methods are modelled as more than one method, each with its own contract:
  - `ConvertToObject` is `ConvertToObject`, `BuildLogLine`, `TakeTypedFields`,
    `TakeTrailingFields` and `TakeField`;
  - `ReadToEndLine` is `ReadCycle`, `ReadLines`, `Accept` and `FinalFlush`;
  - the `OnBlockNewLines` loop is `AppendRecords`, over the two lists, called by `AppendLines`;
  - the detail text is `DetailText` and `Header`.

## Findings

| source | as written | input that shows it | evidently intended | confidence | as-written member | corrected member |
|---|---|---|---|---|---|---|
| LogReader/Converter.cs:116-140 | `ConvertObjectToDict` adds `Level` and `Logger` even when they are null. The copy command (LogViewer/MainWindow.xaml.cs:560-570) passes the result to `TsvFormat`, which reads `value.Length` (LogReader/Converter.cs:149-151) and throws `NullReferenceException` | any line that is not JSON, e.g. `hello`, whose record has no level and no logger; copying its row throws | a missing level or logger is exported as an empty value, and the export formats like any other | not executed | Converter.CopyAsWrittenThrows | Converter.CopyAgrees |

- `ExportAsWritten` and `CopyLineAsWritten` model the code as written.
- `CopyAsWrittenThrows` proves that formatting throws exactly when the level or the logger is
  null. `CopyOfUnparsableThrows` proves that this happens for every line that does not parse.
- The corrected `ConvertObjectToDict` (specified by `Export`) exports a null as the empty
  string. For it, `ExportUnique` proves the keys distinct, `ExportLookupFixed` and
  `ExportLookup` prove what each key holds, and `CopyAgrees` proves that both versions copy the
  same line wherever the code as written succeeds.
