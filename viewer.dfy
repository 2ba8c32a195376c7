/** The view logic of LogViewer/MainWindow.xaml.cs: which records the grid shows under the
    text, tenant and level filters, how incoming blocks extend the lists, the detail text of
    the selected record, the whitelist of log files and the page jump. */
module Viewer {
  import opened Wrappers
  import opened Seqs
  import opened Text
  import opened Converter

  /** The library calls the filters make, which are not part of this model. */
  datatype TextOps = TextOps(
    /** `new Regex(text, IgnoreCase | Singleline)` does not throw `RegexParseException`. */
    regexValid: string -> bool,
    /** `regex.IsMatch(input)` for the pattern. */
    regexMatch: (string, string) -> bool,
    /** `haystack.IndexOf(needle, OrdinalIgnoreCase) > -1`. */
    containsIgnoreCase: (string, string) -> bool,
    /** `string.Equals(a, b, InvariantCultureIgnoreCase)` on two non-null strings. */
    equalsIgnoreCase: (string, string) -> bool,
    /** `ToLower()`. */
    toLower: string -> string)

  /** The filter entry that stands for no restriction. */
  const All: string := "All"

  /** A tenant or level filter that restricts: set, and not "All" in any letter case. */
  predicate Restricts(ops: TextOps, filter: NString) {
    !IsNullOrEmpty(filter) && !ops.equalsIgnoreCase(filter.value, All)
  }

  /** The field is set and contains the text, ignoring case. */
  predicate FieldContains(ops: TextOps, field: NString, text: string) {
    !IsNullOrEmpty(field) && ops.containsIgnoreCase(field.value, text)
  }

  /** The text filter: the full message matches the pattern (regex mode) or contains the text
      (substring mode), or the trace, the process id or the level contains the text. The
      pattern is compiled in both modes, so text that is not a valid pattern hides every line. */
  predicate TextMatches(ops: TextOps, line: LogLine, text: string, useRegex: bool) {
    if text == "" then true
    else if !ops.regexValid(text) then false
    else
      (line.fullMessage != "" &&
        (if useRegex then ops.regexMatch(text, line.fullMessage)
         else ops.containsIgnoreCase(line.fullMessage, text)))
      || FieldContains(ops, line.trace, text)
      || FieldContains(ops, line.pid, text)
      || FieldContains(ops, line.level, text)
  }

  /** `NeedShowLine`: the text filter, then the tenant and the level filters as further
      conditions; a null field never equals a restricting filter. */
  predicate NeedShowLine(ops: TextOps, line: LogLine, text: string, tenant: NString, level: NString, useRegex: bool) {
    && TextMatches(ops, line, text, useRegex)
    && (Restricts(ops, tenant) ==> line.tenant.Some? && ops.equalsIgnoreCase(line.tenant.value, tenant.value))
    && (Restricts(ops, level) ==> line.level.Some? && ops.equalsIgnoreCase(line.level.value, level.value))
  }

  /** `NeedShowLine` for one filter setting, as a value for `Where`. */
  function Shows(ops: TextOps, text: string, tenant: NString, level: NString, useRegex: bool): LogLine -> bool {
    line => NeedShowLine(ops, line, text, tenant, level, useRegex)
  }

  /** The decision of `SetFilter`: a text, or a tenant or level that is set and not exactly
      "All" (compared by ordinal, unlike in `NeedShowLine`). */
  predicate NeedFilter(text: string, tenant: NString, level: NString) {
    text != "" || (tenant != Some(All) && !IsNullOrEmpty(tenant)) || (level != Some(All) && !IsNullOrEmpty(level))
  }

  /** With no text and no restricting tenant or level, every line is shown. */
  lemma EmptyFilterShowsAll(ops: TextOps, line: LogLine, tenant: NString, level: NString, useRegex: bool)
    requires !Restricts(ops, tenant) && !Restricts(ops, level)
    ensures NeedShowLine(ops, line, "", tenant, level, useRegex)
  {
  }

  /** When `SetFilter` decides not to filter, the predicate would have hidden nothing either,
      provided "All" equals itself ignoring case. */
  lemma NoFilterHidesNothing(ops: TextOps, line: LogLine, text: string, tenant: NString, level: NString, useRegex: bool)
    requires ops.equalsIgnoreCase(All, All)
    requires !NeedFilter(text, tenant, level)
    ensures NeedShowLine(ops, line, text, tenant, level, useRegex)
  {
  }

  /** Text that is not a valid pattern hides every line, in substring mode too. */
  lemma InvalidPatternHidesAll(ops: TextOps, line: LogLine, text: string, tenant: NString, level: NString, useRegex: bool)
    requires text != "" && !ops.regexValid(text)
    ensures !NeedShowLine(ops, line, text, tenant, level, useRegex)
  {
  }

  /** A restricting level filter hides every line without a level. */
  lemma LevelFilterHidesNullLevel(ops: TextOps, line: LogLine, text: string, tenant: NString, level: NString, useRegex: bool)
    requires Restricts(ops, level) && line.level.None?
    ensures !NeedShowLine(ops, line, text, tenant, level, useRegex)
  {
  }

  /** In substring mode without tenant or level restriction, a line is shown exactly when one
      of its full message, trace, process id or level contains the text. */
  lemma SubstringModeMatches(ops: TextOps, line: LogLine, text: string, tenant: NString, level: NString)
    requires text != "" && ops.regexValid(text) && !Restricts(ops, tenant) && !Restricts(ops, level)
    ensures NeedShowLine(ops, line, text, tenant, level, false) <==>
      exists field :: field in [Some(line.fullMessage), line.trace, line.pid, line.level] && FieldContains(ops, field, text)
  {
    var fields := [Some(line.fullMessage), line.trace, line.pid, line.level];
    if NeedShowLine(ops, line, text, tenant, level, false) {
      if FieldContains(ops, Some(line.fullMessage), text) {
        assert fields[0] in fields;
      } else if FieldContains(ops, line.trace, text) {
        assert fields[1] in fields;
      } else if FieldContains(ops, line.pid, text) {
        assert fields[2] in fields;
      } else {
        assert fields[3] in fields;
      }
    }
  }

  /** The grid's rows and filter state. */
  class LogView {
    /** `logLines`: every record read. */
    var logLines: seq<LogLine>
    /** `filteredLogLines`: the shown records while a filter is on, null otherwise. */
    var filteredLogLines: Option<seq<LogLine>>
    /** `logLinesView != null`: `InitControls` has run. */
    var viewReady: bool
    /** `UseRegex.IsChecked`, `Filter.Text` and the selected tenant and level. */
    var useRegex: bool
    var filterText: string
    var tenantFilter: NString
    var levelFilter: NString
    const ops: TextOps

    /** The field initialisers: an empty list, no filtered list, no view, nothing selected. */
    constructor (ops: TextOps)
      ensures this.ops == ops && logLines == [] && filteredLogLines.None? && !viewReady
      ensures !useRegex && filterText == "" && tenantFilter.None? && levelFilter.None?
      ensures Consistent()
    {
      this.ops := ops;
      logLines := [];
      filteredLogLines := None;
      viewReady := false;
      useRegex := false;
      filterText := "";
      tenantFilter := None;
      levelFilter := None;
    }

    /** `InitControls`: both filters select "All" and the view over the full list exists. */
    method InitControls()
      modifies this
      ensures tenantFilter == Some(All) && levelFilter == Some(All) && viewReady
      ensures logLines == old(logLines) && filteredLogLines == old(filteredLogLines)
      ensures useRegex == old(useRegex) && filterText == old(filterText)
      ensures old(filteredLogLines).None? ==> Consistent()
    {
      tenantFilter := Some(All);
      levelFilter := Some(All);
      viewReady := true;
    }

    /** The filtered list, when there is one, is what the current controls select. */
    predicate Consistent()
      reads this
    {
      filteredLogLines.Some? ==>
        filteredLogLines.value == Where(logLines, Shows(ops, filterText, tenantFilter, levelFilter, useRegex))
    }

    /** `SetFilter`: nothing before `InitControls` has created the view; then either the
        in-order selection of the records the predicate shows, or no filtered list at all. */
    method SetFilter(text: string, tenant: NString, level: NString)
      modifies this
      ensures !old(viewReady) ==> filteredLogLines == old(filteredLogLines)
      ensures old(viewReady) ==> (filteredLogLines ==
        if NeedFilter(text, tenant, level) then Some(Where(logLines, Shows(ops, text, tenant, level, useRegex))) else None)
      ensures logLines == old(logLines) && viewReady == old(viewReady) && useRegex == old(useRegex)
      ensures filterText == old(filterText) && tenantFilter == old(tenantFilter) && levelFilter == old(levelFilter)
      ensures old(viewReady) && text == filterText && tenant == tenantFilter && level == levelFilter ==> Consistent()
    {
      if !viewReady {
        return;
      }
      if NeedFilter(text, tenant, level) {
        filteredLogLines := Some(Where(logLines, Shows(ops, text, tenant, level, useRegex)));
      } else {
        filteredLogLines := None;
      }
    }

    /** The loop of `OnBlockNewLines` over the converted records: each is appended to the full
        list, and to the filtered list, when there is one, if the current filter shows it. The
        filtered list stays the filter applied to the full list. */
    method AppendLines(converted: seq<LogLine>)
      modifies this
      ensures logLines == old(logLines) + converted
      ensures filteredLogLines == if old(filteredLogLines).None? then None
        else Some(old(filteredLogLines).value + Where(converted, Shows(ops, filterText, tenantFilter, levelFilter, useRegex)))
      ensures viewReady == old(viewReady) && useRegex == old(useRegex)
      ensures filterText == old(filterText) && tenantFilter == old(tenantFilter) && levelFilter == old(levelFilter)
      ensures old(Consistent()) ==> Consistent()
    {
      var shows := Shows(ops, filterText, tenantFilter, levelFilter, useRegex);
      WhereConcat(logLines, converted, shows);
      logLines, filteredLogLines := AppendRecords(logLines, filteredLogLines, converted, shows);
    }

    /** `OnBlockNewLines`: converts the block, then appends it. The progress bar and the
        scrolling are not part of this model. */
    method OnBlockNewLines(p: Platform, lines: seq<string>)
      modifies this
      ensures logLines == old(logLines) + ConvertAll(p, lines)
      ensures filteredLogLines == if old(filteredLogLines).None? then None
        else Some(old(filteredLogLines).value + Where(ConvertAll(p, lines), Shows(ops, filterText, tenantFilter, levelFilter, useRegex)))
      ensures viewReady == old(viewReady) && useRegex == old(useRegex)
      ensures filterText == old(filterText) && tenantFilter == old(tenantFilter) && levelFilter == old(levelFilter)
      ensures old(Consistent()) ==> Consistent()
    {
      var convertedLogLines := ConvertLinesToObjects(p, lines);
      assert convertedLogLines[..] == ConvertAll(p, lines);
      AppendLines(convertedLogLines[..]);
    }
  }

  /** The body of the `OnBlockNewLines` loop on the two lists: every record is added to the
      full list, and to the filtered list, when there is one, if `shows` holds for it. */
  method AppendRecords(all: seq<LogLine>, filtered: Option<seq<LogLine>>, converted: seq<LogLine>, shows: LogLine -> bool)
    returns (all': seq<LogLine>, filtered': Option<seq<LogLine>>)
    ensures all' == all + converted
    ensures filtered' == if filtered.None? then None else Some(filtered.value + Where(converted, shows))
  {
    all', filtered' := all, filtered;
    for i := 0 to |converted|
      invariant all' == all + converted[..i]
      invariant filtered'.Some? == filtered.Some?
      invariant filtered'.Some? ==> filtered'.value == filtered.value + Where(converted[..i], shows)
    {
      AppendStep(converted, i, shows);
      all' := all' + [converted[i]];
      if filtered'.Some? && shows(converted[i]) {
        filtered' := Some(filtered'.value + [converted[i]]);
      }
    }
    assert converted[..|converted|] == converted;
  }

  /** One more element of a prefix. */
  lemma AppendStep(converted: seq<LogLine>, i: nat, shows: LogLine -> bool)
    requires i < |converted|
    ensures converted[..i + 1] == converted[..i] + [converted[i]]
    ensures Where(converted[..i + 1], shows) == Where(converted[..i], shows) + (if shows(converted[i]) then [converted[i]] else [])
  {
    assert converted[..i + 1] == converted[..i] + [converted[i]];
    WhereSnoc(converted[..i], converted[i], shows);
  }

  // ---------------------------------------------------------------------------------------
  // Detail text

  /** The labelled fields of the detail text, in display order. */
  function Labelled(line: LogLine): seq<(string, NString)> {
    [("UserName", line.userName), ("Tenant", line.tenant), ("Pid", line.pid),
     ("Trace", line.trace), ("Version", line.version)]
  }

  predicate HasValue(field: (string, NString)) {
    !IsNullOrEmpty(field.1)
  }

  /** The header line of a field that is not empty. */
  function HeaderLine(field: (string, NString)): string
    requires HasValue(field)
  {
    field.0 + ": " + field.1.value + "\n"
  }

  /** One header line for each field that is not empty, in field order. */
  function HeaderLines(fields: seq<(string, NString)>): (r: seq<string>)
    ensures |r| == |Where(fields, HasValue)|
  {
    var shown := Where(fields, HasValue);
    seq(|shown|, i requires 0 <= i < |shown| => HeaderLine(shown[i]))
  }

  /** The detail text of a selected record: its header lines, then the full message, with an
      empty line between them when both are present. */
  function Detail(line: LogLine): string {
    var header := Flatten(HeaderLines(Labelled(line)));
    header + (if line.fullMessage == "" then "" else (if header == "" then "" else "\n") + line.fullMessage)
  }

  /** How the header lines grow with one more field. */
  lemma HeaderLinesSnoc(fields: seq<(string, NString)>, field: (string, NString))
    ensures Flatten(HeaderLines(fields + [field])) ==
      Flatten(HeaderLines(fields)) + (if HasValue(field) then HeaderLine(field) else "")
  {
    WhereSnoc(fields, field, HasValue);
    var a := HeaderLines(fields);
    if HasValue(field) {
      assert HeaderLines(fields + [field]) == a + [HeaderLine(field)];
      assert (a + [HeaderLine(field)])[..|a|] == a;
    } else {
      assert HeaderLines(fields + [field]) == a;
    }
  }

  /** The header accumulation of `LogsGrid_SelectionChanged`: one `+=` per non-empty field. */
  method Header(fields: seq<(string, NString)>) returns (s: string)
    ensures s == Flatten(HeaderLines(fields))
  {
    s := "";
    for i := 0 to |fields|
      invariant s == Flatten(HeaderLines(fields[..i]))
    {
      assert fields[..i + 1] == fields[..i] + [fields[i]];
      HeaderLinesSnoc(fields[..i], fields[i]);
      if !IsNullOrEmpty(fields[i].1) {
        s := s + HeaderLine(fields[i]);
      }
    }
    assert fields[..|fields|] == fields;
  }

  /** `LogsGrid_SelectionChanged`: null without a selection, otherwise built by appending. */
  method DetailText(selected: Option<LogLine>) returns (text: NString)
    ensures selected.None? ==> text.None?
    ensures selected.Some? ==> text == Some(Detail(selected.value))
  {
    if selected.None? {
      return None;
    }
    var line := selected.value;
    var s := Header(Labelled(line));
    ghost var header := s;
    assert header == Flatten(HeaderLines(Labelled(line)));
    if line.fullMessage != "" {
      if s != "" {
        s := s + "\n";
        assert s + line.fullMessage == header + ("\n" + line.fullMessage);
      }
      s := s + line.fullMessage;
      assert s == Detail(line);
    } else {
      assert Detail(line) == header + "";
      assert s == Detail(line);
    }
    text := Some(s);
  }

  /** Every header line is "Key: value" and a line feed for a field that is not empty. */
  lemma HeaderLinesShape(fields: seq<(string, NString)>, i: nat)
    requires i < |HeaderLines(fields)|
    ensures exists j :: 0 <= j < |fields| && HasValue(fields[j]) && HeaderLines(fields)[i] == HeaderLine(fields[j])
  {
    WhereMembers(fields, HasValue);
    var shown := Where(fields, HasValue);
    assert shown[i] in fields;
    var j :| 0 <= j < |fields| && fields[j] == shown[i];
    assert HeaderLines(fields)[i] == HeaderLine(fields[j]);
  }

  /** Without any field that is set there are no header lines. */
  lemma NoHeaderLines(fields: seq<(string, NString)>)
    requires forall f :: f in fields ==> !HasValue(f)
    ensures HeaderLines(fields) == []
  {
    WhereNone(fields, HasValue);
  }

  /** A record with none of the labelled fields shows just its full message. */
  lemma DetailOfMessageOnly(line: LogLine)
    requires forall f :: f in Labelled(line) ==> !HasValue(f)
    ensures Detail(line) == line.fullMessage
  {
    NoHeaderLines(Labelled(line));
  }

  /** The detail text ends with the full message, set off by a line feed from the header lines
      when there are any. */
  lemma DetailEndsWithMessage(line: LogLine)
    requires line.fullMessage != ""
    ensures var d := Detail(line); var n := |line.fullMessage|;
      |d| >= n && d[|d| - n..] == line.fullMessage
      && (|d| > n ==> d[|d| - n - 1] == '\n')
  {
  }

  // ---------------------------------------------------------------------------------------
  // Log file whitelist

  /** One whitelist entry: trimmed, lower-cased, with `${machinename}` and `${shortdate}`
      replaced by the lower-cased machine name and the date. */
  function WhitelistEntry(ops: TextOps, machineName: string, date: string, entry: string): string {
    Replace(Replace(ops.toLower(Trim(entry)), "${machinename}", ops.toLower(machineName)), "${shortdate}", date)
  }

  predicate NonEmptyText(s: string) {
    s != ""
  }

  /** Each piece of the setting normalised. */
  function Normalised(ops: TextOps, machineName: string, date: string, pieces: seq<string>): (r: seq<string>)
    ensures |r| == |pieces|
    ensures forall i :: 0 <= i < |r| ==> r[i] == WhitelistEntry(ops, machineName, date, pieces[i])
  {
    seq(|pieces|, i requires 0 <= i < |pieces| => WhitelistEntry(ops, machineName, date, pieces[i]))
  }

  /** The whitelist setting split at each line-break character, normalised, blanks dropped. */
  function Whitelist(ops: TextOps, setting: string, machineName: string, date: string): (r: seq<string>)
    ensures forall i :: 0 <= i < |r| ==> r[i] != ""
  {
    Where(Normalised(ops, machineName, date, SplitBreaks(setting)), NonEmptyText)
  }

  /** The whitelist holds exactly the non-blank normalised pieces of the setting: every entry
      is the normalised form of a piece, and every piece that normalises to a non-blank text is
      on it (`Normalised` says what each normalised form is). */
  lemma WhitelistEntries(ops: TextOps, setting: string, machineName: string, date: string)
    ensures var w := Whitelist(ops, setting, machineName, date);
      var n := Normalised(ops, machineName, date, SplitBreaks(setting));
      (forall k :: 0 <= k < |w| ==> w[k] in n) && (forall i :: 0 <= i < |n| && n[i] != "" ==> n[i] in w)
  {
    WhereMembers(Normalised(ops, machineName, date, SplitBreaks(setting)), NonEmptyText);
  }

  /** The name a file is matched by: its lower-cased name without extension. */
  function LogKey(ops: TextOps, path: string): string {
    FileNameWithoutExtension(ops.toLower(FileName(path)))
  }

  /** `FindLogs`: null when the directory does not exist; otherwise the `*.log` files found
      under it, in enumeration order, whose key is on the whitelist. */
  function FindLogs(ops: TextOps, directoryExists: bool, files: seq<string>, setting: string,
                    machineName: string, date: string): (r: Option<seq<string>>)
    ensures r.None? <==> !directoryExists
  {
    if !directoryExists then None
    else
      var whitelist := Whitelist(ops, setting, machineName, date);
      Some(Where(files, f => LogKey(ops, f) in whitelist))
  }

  /** A found file is kept exactly when its key is on the whitelist. */
  lemma FindLogsKeeps(ops: TextOps, files: seq<string>, setting: string, machineName: string, date: string)
    ensures var r := FindLogs(ops, true, files, setting, machineName, date).value;
      var whitelist := Whitelist(ops, setting, machineName, date);
      (forall i :: 0 <= i < |r| ==> r[i] in files && LogKey(ops, r[i]) in whitelist)
      && (forall i :: 0 <= i < |files| && LogKey(ops, files[i]) in whitelist ==> files[i] in r)
  {
    var whitelist := Whitelist(ops, setting, machineName, date);
    WhereMembers(files, f => LogKey(ops, f) in whitelist);
  }

  /** A setting without line breaks is a single entry, which is dropped when blank. */
  lemma SingleEntryWhitelist(ops: TextOps, setting: string, machineName: string, date: string)
    requires forall i :: 0 <= i < |setting| ==> !IsBreak(setting[i])
    ensures var e := WhitelistEntry(ops, machineName, date, setting);
      Whitelist(ops, setting, machineName, date) == if e == "" then [] else [e]
  {
    var pieces := SplitBreaks(setting);
    SplitBreaksCount(setting);
    WhereNone(setting, IsBreak);
    NoBreakFirstLine(setting);
    assert |pieces| == 1 && pieces[0] == setting;
    var e := WhitelistEntry(ops, machineName, date, setting);
    var entries := Normalised(ops, machineName, date, pieces);
    assert entries == [e];
    WhereSnoc([], entries[0], NonEmptyText);
    assert [] + [entries[0]] == entries;
  }

  lemma {:induction false} NoBreakFirstLine(s: string)
    requires forall i :: 0 <= i < |s| ==> !IsBreak(s[i])
    ensures FirstLine(s) == s
  {
    if s != [] {
      NoBreakFirstLine(s[1..]);
      assert [s[0]] + s[1..] == s;
    }
  }

  // ---------------------------------------------------------------------------------------
  // Page up / page down

  function Max(a: int, b: int): int { if a < b then b else a }
  function Min(a: int, b: int): int { if a < b then a else b }

  /** `OnPageUpOrDownKeyDown`: without a selection nothing moves; otherwise the selection
      jumps by one row less than the visible rows (at least one), clamped to the rows. */
  function PageTarget(rowIndex: int, viewportRows: int, count: int, up: bool): (r: Option<int>)
    ensures r.None? <==> rowIndex < 0
    ensures r.Some? ==> 0 <= r.value && (count > 0 ==> r.value < count)
  {
    if rowIndex < 0 then None
    else
      var jump := Max(1, viewportRows - 1);
      var target := if up then rowIndex - jump else rowIndex + jump;
      Some(Max(0, Min(target, count - 1)))
  }

  /** The target is a row, lies in the requested direction at most one jump away, and moves
      unless the selection is already at that end. */
  lemma PageTargetProperties(rowIndex: int, viewportRows: int, count: int, up: bool)
    requires 0 <= rowIndex < count
    ensures var t := PageTarget(rowIndex, viewportRows, count, up).value;
      var jump := Max(1, viewportRows - 1);
      0 <= t < count
      && (up ==> rowIndex - jump <= t <= rowIndex && (rowIndex > 0 ==> t < rowIndex))
      && (!up ==> rowIndex <= t <= rowIndex + jump && (rowIndex < count - 1 ==> t > rowIndex))
      && (t == 0 || t == count - 1 || t == (if up then rowIndex - jump else rowIndex + jump))
  {
  }
}
