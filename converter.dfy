/** The record converter of LogReader/Converter.cs: one JSON log line becomes a `LogLine` with
    typed fields and a rendered free-text body, and a `LogLine` becomes an export dictionary. */
module Converter {
  import opened Wrappers
  import opened Seqs
  import opened Text
  import opened Dict
  import opened Formatter

  /** A JSON token as the converter reads it: its `ToString()` text and, for a property of a
      nested object, the property name and the `ToString()` text of its value. */
  datatype Token =
    | Value(text: string)
    | Property(name: string, valueText: string, text: string)

  /** The top-level properties of a parsed JSON object in document order, each with the
      tokens that `Values()` enumerates for it. */
  type JsonProperties = seq<(string, seq<Token>)>

  /** The library calls the converter makes, which are not part of this model:
      `JObject.Parse(..).Properties()` (None when it throws), `DateTime.Parse` as ticks
      (None when it throws) and `DateTime.ToString("yyyy-MM-dd HH:mm:ss.fff")`. */
  datatype Platform = Platform(
    parseJson: string -> Option<JsonProperties>,
    parseTime: string -> Option<int>,
    formatTime: int -> string)

  /** `DateTime.MinValue`, the time of a record without a `t` field. */
  const MinTime: int := 0

  /** `LogLine` (LogReader/LogLine.cs); the reference-typed properties are null unless set. */
  datatype LogLine = LogLine(
    time: int,
    level: NString,
    logger: NString,
    message: string,
    fullMessage: string,
    userName: NString,
    tenant: NString,
    version: NString,
    pid: NString,
    trace: NString)

  /** The record returned when conversion throws: the raw line as both messages. */
  function Fallback(jsonLine: string): LogLine {
    LogLine(MinTime, None, None, jsonLine, jsonLine, None, None, None, None, None)
  }

  /** The keys moved to typed fields, in the order `ConvertToObject` takes them. */
  const TypedKeyOrder: seq<string> := ["pid", "tr", "t", "l", "lg", "un", "tn", "v"]


  predicate UniqueNames(props: JsonProperties) {
    forall i, j :: 0 <= i < j < |props| ==> props[i].0 != props[j].0
  }

  /** `GetJsonValues`: the parsed properties; `ToDictionary` throws on a repeated name. */
  function GetJsonValues(p: Platform, json: string): (r: Option<JsonProperties>)
    ensures r.Some? ==> UniqueNames(r.value) && p.parseJson(json) == r
  {
    match p.parseJson(json)
    case None => None
    case Some(props) => if UniqueNames(props) then Some(props) else None
  }

  function Texts(tokens: seq<Token>): (r: seq<string>)
    ensures |r| == |tokens|
  {
    seq(|tokens|, i requires 0 <= i < |tokens| => tokens[i].text)
  }

  function StrippedTexts(tokens: seq<Token>): (r: seq<string>)
    ensures |r| == |tokens|
    ensures forall i, j :: 0 <= i < |r| && 0 <= j < |r[i]| ==> !IsBreak(r[i][j])
    ensures forall i :: 0 <= i < |r| ==> r[i] == Where(tokens[i].text, NotBreak)
  {
    seq(|tokens|, i requires 0 <= i < |tokens| => StripBreaks(tokens[i].text))
  }

  /** `Convert(tokens, prefix, postfix)`: the token texts without line breaks, joined by ", ". */
  function ConvertTokens(tokens: seq<Token>, prefix: string, postfix: string): (r: string)
    ensures |r| >= |prefix| + |postfix| && r[..|prefix|] == prefix && r[|r| - |postfix|..] == postfix
  {
    prefix + Join(", ", StrippedTexts(tokens)) + postfix
  }

  /** `ConvertArguments`: the arguments in parentheses, on one line. */
  function ConvertArguments(tokens: seq<Token>): (r: string)
    ensures |r| >= 2 && r[0] == '(' && r[|r| - 1] == ')'
    ensures forall j :: 0 <= j < |r| ==> !IsBreak(r[j])
  {
    ConvertTokensNoBreaks(tokens, "(", ")");
    ConvertTokens(tokens, "(", ")")
  }

  /** `ConvertCustomProperties`: the custom properties in brackets, on one line. */
  function ConvertCustomProperties(tokens: seq<Token>): (r: string)
    ensures |r| >= 2 && r[0] == '[' && r[|r| - 1] == ']'
    ensures forall j :: 0 <= j < |r| ==> !IsBreak(r[j])
  {
    ConvertTokensNoBreaks(tokens, "[", "]");
    ConvertTokens(tokens, "[", "]")
  }

  /** `ConvertSpan`: the span values after "Span(" and before ")", on one line. */
  function ConvertSpan(tokens: seq<Token>): (r: string)
    ensures |r| >= 6 && r[..5] == "Span(" && r[|r| - 1] == ')'
    ensures forall j :: 0 <= j < |r| ==> !IsBreak(r[j])
  {
    ConvertTokensNoBreaks(tokens, "Span(", ")");
    ConvertTokens(tokens, "Span(", ")")
  }

  /** `OfType<JProperty>().FirstOrDefault(p => p.Name == name)?.Value.ToString()`. */
  function FindProperty(tokens: seq<Token>, name: string): (r: Option<string>)
    ensures r.None? <==> forall i :: 0 <= i < |tokens| ==> !(tokens[i].Property? && tokens[i].name == name)
    ensures r.Some? ==> exists i :: (0 <= i < |tokens| && tokens[i].Property? && tokens[i].name == name
                                     && tokens[i].valueText == r.value
                                     && forall j :: 0 <= j < i ==> !(tokens[j].Property? && tokens[j].name == name))
  {
    if tokens == [] then None
    else if tokens[0].Property? && tokens[0].name == name then Some(tokens[0].valueText)
    else
      var r := FindProperty(tokens[1..], name);
      assert forall i :: 1 <= i < |tokens| ==> tokens[1..][i - 1] == tokens[i];
      r
  }

  /** `ConvertException`: a line feed, then the exception type (all token texts on separate
      lines when there is none), then ": " and the message, then the stack on a new line,
      indented, with "\r\n" turned into "\n". */
  function ConvertException(tokens: seq<Token>): (r: string)
    ensures |r| > 0 && r[0] == '\n'
  {
    var typeName := FindProperty(tokens, "type");
    var message := FindProperty(tokens, "m");
    var stack := FindProperty(tokens, "stack");
    "\n"
    + (if !IsNullOrEmpty(typeName) then typeName.value else Join("\n", Texts(tokens)))
    + (if !IsNullOrEmpty(message) then ": " + message.value else "")
    + (if !IsNullOrEmpty(stack) then "\n   " + Replace(stack.value, "\r\n", "\n") else "")
  }

  /** The `switch` of `ParseLogLine`: the rendering rule chosen by the key. */
  function RenderValue(key: string, tokens: seq<Token>): (r: string)
    ensures key == "st" || key == "ex" ==> |r| > 0 && r[0] == '\n'
  {
    if key == "st" || key == "ex" then ConvertException(tokens)
    else if key == "args" then ConvertArguments(tokens)
    else if key == "cust" then ConvertCustomProperties(tokens)
    else if key == "span" then ConvertSpan(tokens)
    else ConvertTokens(tokens, "", "")
  }

  function RenderAll(props: JsonProperties): (r: Dict)
    ensures |r| == |props|
  {
    seq(|props|, i requires 0 <= i < |props| => (props[i].0, RenderValue(props[i].0, props[i].1)))
  }

  predicate HasText(e: Entry) {
    e.1 != ""
  }

  /** The rendered properties with an empty rendering dropped, in document order. */
  function Rendered(props: JsonProperties): Dict {
    Where(RenderAll(props), HasText)
  }

  /** What `ParseLogLine` returns: the rendered properties, or `{ "": jsonLine }` when the
      line cannot be read as a JSON object with distinct names. */
  function ParsedElements(p: Platform, jsonLine: string): Dict {
    match GetJsonValues(p, jsonLine)
    case None => [("", jsonLine)]
    case Some(props) => Rendered(props)
  }

  lemma RenderAllSnoc(props: JsonProperties, i: nat)
    requires i < |props|
    ensures RenderAll(props[..i + 1]) == RenderAll(props[..i]) + [(props[i].0, RenderValue(props[i].0, props[i].1))]
  {
  }

  /** A rendered dictionary holds only keys of earlier properties. */
  lemma {:induction false} RenderedKeys(props: JsonProperties, k: string)
    requires forall i :: 0 <= i < |props| ==> props[i].0 != k
    ensures Lookup(Rendered(props), k).None?
  {
    var r := Rendered(props);
    WhereMembers(RenderAll(props), HasText);
    forall i | 0 <= i < |r| ensures r[i].0 != k {
      assert r[i] in RenderAll(props);
    }
  }

  /** `ParseLogLine`: renders each property with the rule for its key and stores the
      non-empty ones by indexer assignment. */
  method ParseLogLine(p: Platform, jsonLine: string) returns (elements: Dict)
    ensures elements == ParsedElements(p, jsonLine)
  {
    var json := GetJsonValues(p, jsonLine);
    if json.None? {
      return [("", jsonLine)];
    }
    var props := json.value;
    elements := [];
    for i := 0 to |props|
      invariant elements == Rendered(props[..i])
    {
      var key := props[i].0;
      var value := RenderValue(key, props[i].1);
      RenderAllSnoc(props, i);
      WhereSnoc(RenderAll(props[..i]), (key, value), HasText);
      if value != "" {
        RenderedKeys(props[..i], key);
        elements := Put(elements, key, value);
      }
    }
    assert props[..|props|] == props;
  }

  /** What `ConvertToObject` returns: the typed keys moved to their fields, the remaining
      elements formatted as the full message and its first line as the message; the
      fallback record when the time does not parse. */
  function ConvertSpec(p: Platform, jsonLine: string): (r: LogLine)
    ensures TimeFails(p, ParsedElements(p, jsonLine)) ==>
      r.message == jsonLine && r.fullMessage == jsonLine && r.level.None? && r.logger.None?
      && r.userName.None? && r.tenant.None? && r.version.None? && r.pid.None? && r.trace.None?
    ensures !TimeFails(p, ParsedElements(p, jsonLine)) ==>
      var d := ParsedElements(p, jsonLine);
      r.level == Lookup(d, "l") && r.logger == Lookup(d, "lg") && r.userName == Lookup(d, "un")
      && r.tenant == Lookup(d, "tn") && r.version == Lookup(d, "v") && r.pid == Lookup(d, "pid")
      && r.trace == Lookup(d, "tr") && r.message == FirstLine(r.fullMessage)
  {
    FromElements(p, jsonLine, ParsedElements(p, jsonLine))
  }

  /** `DateTime.Parse` throws on the `t` element of `d`. */
  predicate TimeFails(p: Platform, d: Dict) {
    Lookup(d, "t").Some? && p.parseTime(Lookup(d, "t").value).None?
  }

  /** The typed fields taken from `d`, with both messages still empty. */
  function TypedFields(p: Platform, d: Dict): LogLine
    requires !TimeFails(p, d)
  {
    LogLine(
      time := if Lookup(d, "t").Some? then p.parseTime(Lookup(d, "t").value).value else MinTime,
      level := Lookup(d, "l"),
      logger := Lookup(d, "lg"),
      message := "",
      fullMessage := "",
      userName := Lookup(d, "un"),
      tenant := Lookup(d, "tn"),
      version := Lookup(d, "v"),
      pid := Lookup(d, "pid"),
      trace := Lookup(d, "tr"))
  }

  /** The record built from the parsed elements `d` of `jsonLine`. */
  function FromElements(p: Platform, jsonLine: string, d: Dict): LogLine {
    if TimeFails(p, d) then Fallback(jsonLine)
    else
      var full := Format(Without(d, TypedKeyOrder));
      TypedFields(p, d).(fullMessage := full, message := FirstLine(full))
  }

  /** The typed keys are distinct. */
  lemma TypedKeysDistinct(j: nat)
    requires j < |TypedKeyOrder|
    ensures TypedKeyOrder[j] !in TypedKeyOrder[..j]
  {
  }

  /** The dictionary after the first `j` typed keys have been taken out. */
  function Stage(d: Dict, j: nat): Dict
    requires j <= |TypedKeyOrder|
  {
    if j == 0 then d else Remove(Stage(d, j - 1), TypedKeyOrder[j - 1])
  }

  /** Taking typed keys out one by one removes exactly those keys. */
  lemma {:induction false} StageWithout(d: Dict, j: nat)
    requires j <= |TypedKeyOrder|
    ensures Stage(d, j) == Without(d, TypedKeyOrder[..j])
  {
    if j == 0 {
      WithoutNothing(d);
      assert TypedKeyOrder[..0] == [];
    } else {
      StageWithout(d, j - 1);
      RemoveAfterWithout(d, TypedKeyOrder[..j - 1], TypedKeyOrder[j - 1]);
      assert TypedKeyOrder[..j - 1] + [TypedKeyOrder[j - 1]] == TypedKeyOrder[..j];
    }
  }

  /** One `ContainsKey` / indexer / `Remove` step of `ConvertToObject`, for the typed key at
      position `j`, on a dictionary from which the keys before it are already gone. */
  method TakeField(parsedLine: Dict, key: string, ghost d: Dict, ghost j: nat)
    returns (value: NString, rest: Dict)
    requires j < |TypedKeyOrder| && key == TypedKeyOrder[j] && parsedLine == Stage(d, j)
    ensures value == Lookup(d, key)
    ensures rest == Stage(d, j + 1)
  {
    StageWithout(d, j);
    TypedKeysDistinct(j);
    WithoutLookup(d, TypedKeyOrder[..j], key);
    value := Lookup(parsedLine, key);
    rest := parsedLine;
    if value.Some? {
      rest := Remove(parsedLine, key);
    } else {
      RemoveAbsent(parsedLine, key);
    }
  }

  /** `ConvertToObject`: parses the line, then builds the record from its elements. */
  method ConvertToObject(p: Platform, jsonLine: string) returns (log: LogLine)
    ensures log == ConvertSpec(p, jsonLine)
  {
    var parsedLine := ParseLogLine(p, jsonLine);
    log := BuildLogLine(p, jsonLine, parsedLine);
  }

  /** The body of `ConvertToObject` after parsing; its `catch` returns the fallback record. */
  method BuildLogLine(p: Platform, jsonLine: string, parsedLine: Dict) returns (log: LogLine)
    ensures log == FromElements(p, jsonLine, parsedLine)
  {
    var rest, parsed;
    log, rest, parsed := TakeTypedFields(p, parsedLine);
    if !parsed {
      return Fallback(jsonLine);
    }
    var fullMessage := TsvFormat(rest);
    log := log.(fullMessage := fullMessage);
    var firstLine := SplitBreaks(fullMessage)[0];
    log := log.(message := firstLine);
  }

  /** The `ContainsKey` / indexer / `Remove` steps of `ConvertToObject`, in the source's order;
      `parsed` is false when `DateTime.Parse` throws. */
  method TakeTypedFields(p: Platform, parsedLine: Dict) returns (log: LogLine, rest: Dict, parsed: bool)
    ensures parsed == !TimeFails(p, parsedLine)
    ensures parsed ==> log == TypedFields(p, parsedLine) && rest == Without(parsedLine, TypedKeyOrder)
  {
    ghost var d := parsedLine;
    rest := parsedLine;
    log := LogLine(MinTime, None, None, "", "", None, None, None, None, None);
    var value;
    value, rest := TakeField(rest, "pid", d, 0);
    log := log.(pid := value);
    value, rest := TakeField(rest, "tr", d, 1);
    log := log.(trace := value);
    value, rest := TakeField(rest, "t", d, 2);
    if value.Some? {
      var time := p.parseTime(value.value);
      if time.None? {
        return log, rest, false;
      }
      log := log.(time := time.value);
    }
    log, rest := TakeTrailingFields(log, rest, d);
    parsed := true;
  }

  /** The five typed keys after the time (`l`, `lg`, `un`, `tn`, `v`), taken in source order. */
  method TakeTrailingFields(log: LogLine, parsedLine: Dict, ghost d: Dict) returns (log': LogLine, rest: Dict)
    requires parsedLine == Stage(d, 3)
    ensures log' == log.(level := Lookup(d, "l"), logger := Lookup(d, "lg"),
      userName := Lookup(d, "un"), tenant := Lookup(d, "tn"), version := Lookup(d, "v"))
    ensures rest == Without(d, TypedKeyOrder)
  {
    var level, logger, userName, tenant, version;
    level, rest := TakeField(parsedLine, "l", d, 3);
    logger, rest := TakeField(rest, "lg", d, 4);
    userName, rest := TakeField(rest, "un", d, 5);
    tenant, rest := TakeField(rest, "tn", d, 6);
    version, rest := TakeField(rest, "v", d, 7);
    log' := log.(level := level, logger := logger, userName := userName, tenant := tenant, version := version);
    StageWithout(d, 8);
    assert TypedKeyOrder[..8] == TypedKeyOrder;
  }

  /** The records of a block of lines, one per line, in order. */
  function ConvertAll(p: Platform, lines: seq<string>): (r: seq<LogLine>)
    ensures |r| == |lines|
    ensures forall i :: 0 <= i < |lines| ==> r[i] == ConvertSpec(p, lines[i])
  {
    seq(|lines|, i requires 0 <= i < |lines| => ConvertSpec(p, lines[i]))
  }

  /** `ConvertLinesToObjects`: one converted record per line, at the line's index. */
  method ConvertLinesToObjects(p: Platform, lines: seq<string>) returns (logLines: array<LogLine>)
    ensures fresh(logLines) && logLines.Length == |lines|
    ensures forall i :: 0 <= i < |lines| ==> logLines[i] == ConvertSpec(p, lines[i])
  {
    logLines := new LogLine[|lines|];
    ghost var converted: seq<LogLine> := [];
    for index := 0 to |lines|
      invariant logLines[..index] == converted
      invariant forall i :: 0 <= i < index ==> converted[i] == ConvertSpec(p, lines[i])
    {
      var log := ConvertToObject(p, lines[index]);
      logLines[index] := log;
      converted := converted + [log];
    }
    assert logLines[..] == logLines[..|lines|];
  }

  // ---------------------------------------------------------------------------------------
  // Properties of the conversion

  /** The value a non-empty rendering is stored as, and the absence of an empty one. */
  function Stored(v: string): (r: Option<string>)
    ensures r.Some? <==> v != ""
    ensures r.Some? ==> r.value == v
  {
    if v == "" then None else Some(v)
  }

  /** With distinct property names, the element stored under a property's name is its
      rendering, unless that rendering is empty. */
  lemma {:induction false} RenderedLookup(props: JsonProperties, i: nat)
    requires UniqueNames(props) && i < |props|
    ensures Lookup(Rendered(props), props[i].0) == Stored(RenderValue(props[i].0, props[i].1))
  {
    var n := |props| - 1;
    var init := props[..n];
    var k := props[i].0;
    var e := (props[n].0, RenderValue(props[n].0, props[n].1));
    RenderAllSnoc(props, n);
    assert props[..n + 1] == props;
    WhereSnoc(RenderAll(init), e, HasText);
    LookupConcat(Rendered(init), if HasText(e) then [e] else [], k);
    if i == n {
      RenderedKeys(init, k);
    } else {
      assert UniqueNames(init);
      assert init[i] == props[i];
      RenderedLookup(init, i);
    }
  }

  /** The typed keys whose field is a string. */
  predicate StringKey(k: string) {
    k == "pid" || k == "tr" || k == "l" || k == "lg" || k == "un" || k == "tn" || k == "v"
  }

  /** The string-typed field a typed key fills. */
  function TypedField(log: LogLine, key: string): NString {
    if key == "pid" then log.pid
    else if key == "tr" then log.trace
    else if key == "l" then log.level
    else if key == "lg" then log.logger
    else if key == "un" then log.userName
    else if key == "tn" then log.tenant
    else if key == "v" then log.version
    else None
  }

  /** The fields of a record whose time parses, as the elements it was built from. */
  lemma ConvertedFields(p: Platform, jsonLine: string)
    requires !TimeFails(p, ParsedElements(p, jsonLine))
    ensures var d := ParsedElements(p, jsonLine); var log := ConvertSpec(p, jsonLine);
      log.pid == Lookup(d, "pid") && log.trace == Lookup(d, "tr") && log.level == Lookup(d, "l")
      && log.logger == Lookup(d, "lg") && log.userName == Lookup(d, "un")
      && log.tenant == Lookup(d, "tn") && log.version == Lookup(d, "v")
      && log.fullMessage == Format(Without(d, TypedKeyOrder))
  {
    var d := ParsedElements(p, jsonLine);
    assert ConvertSpec(p, jsonLine) == FromElements(p, jsonLine, d);
  }

  /** A record read from a well-formed line carries in each string-typed field the rendering
      of the property of that name, and null when that rendering is empty. */
  lemma TypedFieldFromProperty(p: Platform, jsonLine: string, props: JsonProperties, i: nat)
    requires GetJsonValues(p, jsonLine) == Some(props) && i < |props|
    requires StringKey(props[i].0)
    requires !TimeFails(p, Rendered(props))
    ensures TypedField(ConvertSpec(p, jsonLine), props[i].0) == Stored(RenderValue(props[i].0, props[i].1))
  {
    ConvertedFields(p, jsonLine);
    RenderedLookup(props, i);
  }

  /** A typed key the line does not contain leaves its field null. */
  lemma TypedFieldAbsent(p: Platform, jsonLine: string, props: JsonProperties, key: string)
    requires GetJsonValues(p, jsonLine) == Some(props)
    requires StringKey(key)
    requires forall i :: 0 <= i < |props| ==> props[i].0 != key
    requires !TimeFails(p, Rendered(props))
    ensures TypedField(ConvertSpec(p, jsonLine), key).None?
  {
    ConvertedFields(p, jsonLine);
    RenderedKeys(props, key);
  }

  /** A `t` property whose rendering `DateTime.Parse` rejects turns the whole line into the
      fallback record. */
  lemma BadTimeFallback(p: Platform, jsonLine: string, props: JsonProperties, i: nat)
    requires GetJsonValues(p, jsonLine) == Some(props) && i < |props| && props[i].0 == "t"
    requires RenderValue("t", props[i].1) != "" && p.parseTime(RenderValue("t", props[i].1)).None?
    ensures ConvertSpec(p, jsonLine) == Fallback(jsonLine)
  {
    RenderedLookup(props, i);
  }

  /** A line that is not a JSON object with distinct names keeps the raw line as its full
      message and its first line as its message, with every typed field unset. */
  lemma UnparsableLine(p: Platform, jsonLine: string)
    requires GetJsonValues(p, jsonLine).None?
    ensures ConvertSpec(p, jsonLine) ==
      LogLine(MinTime, None, None, FirstLine(jsonLine), jsonLine, None, None, None, None, None)
  {
    assert ParsedElements(p, jsonLine) == [("", jsonLine)];
    FromUnnamed(p, jsonLine);
  }

  /** The record built from the fallback dictionary `{ "": line }`. */
  lemma FromUnnamed(p: Platform, jsonLine: string)
    ensures FromElements(p, jsonLine, [("", jsonLine)]) ==
      LogLine(MinTime, None, None, FirstLine(jsonLine), jsonLine, None, None, None, None, None)
  {
    var d := [("", jsonLine)];
    assert forall k :: k != "" ==> Lookup(d, k).None?;
    assert !TimeFails(p, d);
    assert TypedFields(p, d) == LogLine(MinTime, None, None, "", "", None, None, None, None, None);
    assert "" !in TypedKeyOrder by {
      assert forall i :: 0 <= i < |TypedKeyOrder| ==> |TypedKeyOrder[i]| > 0;
    }
    assert Without(d, TypedKeyOrder) == Without([], TypedKeyOrder) + d;
    FormatUnnamed(jsonLine);
  }

  /** The message is the full message up to its first line break. */
  lemma MessageIsFirstLine(p: Platform, jsonLine: string)
    requires !TimeFails(p, ParsedElements(p, jsonLine))
    ensures var log := ConvertSpec(p, jsonLine);
      log.message <= log.fullMessage
      && (forall i :: 0 <= i < |log.message| ==> !IsBreak(log.message[i]))
      && (|log.message| < |log.fullMessage| ==> IsBreak(log.fullMessage[|log.message|]))
  {
  }

  /** Only exception values start with a line feed, so they alone go to the trailing region;
      every other rendering is a single line. */
  lemma RenderedDeferred(key: string, tokens: seq<Token>)
    ensures Deferred((key, RenderValue(key, tokens))) <==> key == "st" || key == "ex"
    ensures key != "st" && key != "ex" ==>
      forall j :: 0 <= j < |RenderValue(key, tokens)| ==> !IsBreak(RenderValue(key, tokens)[j])
  {
    if key == "st" || key == "ex" {
    } else if key == "args" {
      ConvertTokensNoBreaks(tokens, "(", ")");
    } else if key == "cust" {
      ConvertTokensNoBreaks(tokens, "[", "]");
    } else if key == "span" {
      ConvertTokensNoBreaks(tokens, "Span(", ")");
    } else {
      ConvertTokensNoBreaks(tokens, "", "");
    }
  }

  /** With a break-free prefix and postfix, `Convert` yields a single line. */
  lemma ConvertTokensNoBreaks(tokens: seq<Token>, prefix: string, postfix: string)
    requires forall j :: 0 <= j < |prefix| ==> !IsBreak(prefix[j])
    requires forall j :: 0 <= j < |postfix| ==> !IsBreak(postfix[j])
    ensures forall j :: 0 <= j < |ConvertTokens(tokens, prefix, postfix)| ==> !IsBreak(ConvertTokens(tokens, prefix, postfix)[j])
  {
    JoinNoBreaks(", ", StrippedTexts(tokens));
  }

  /** A key that is not typed has no configured width and no postfix. */
  lemma UntypedKeyIsPlain(k: string)
    requires k !in TypedKeyOrder
    ensures Width(k).None? && Postfix(k) == ""
  {
    assert k != TypedKeyOrder[0] && k != TypedKeyOrder[1] && k != TypedKeyOrder[3] && k != TypedKeyOrder[4];
  }

  /** Entries without typed keys render as their values. */
  lemma UntypedCells(d: Dict)
    requires forall i :: 0 <= i < |d| ==> d[i].0 !in TypedKeyOrder
    ensures Cells(d) == Values(d)
  {
    forall i | 0 <= i < |d| ensures Cells(d)[i] == Values(d)[i] {
      UntypedKeyIsPlain(d[i].0);
    }
  }

  /** Entries without typed keys render verbatim: the single-line values joined by spaces,
      then the multi-line ones. */
  lemma UntypedFormat(d: Dict)
    requires forall i :: 0 <= i < |d| ==> d[i].0 !in TypedKeyOrder
    ensures Format(d) == Join(" ", Values(Where(d, Inlined))) + TrailingPart(d)
  {
    var inl := Where(d, Inlined);
    WhereMembers(d, Inlined);
    forall i | 0 <= i < |inl| ensures inl[i].0 !in TypedKeyOrder {
      var j :| 0 <= j < |d| && d[j] == inl[i];
    }
    UntypedCells(inl);
  }

  /** The elements left for the full message have no configured width or postfix, so the full
      message is their values verbatim: the single-line ones joined by spaces, then the
      exception values. */
  lemma FullMessageVerbatim(p: Platform, jsonLine: string)
    requires !TimeFails(p, ParsedElements(p, jsonLine))
    ensures var rest := Without(ParsedElements(p, jsonLine), TypedKeyOrder);
      ConvertSpec(p, jsonLine).fullMessage == Join(" ", Values(Where(rest, Inlined))) + TrailingPart(rest)
  {
    ConvertedFields(p, jsonLine);
    WithoutMembers(ParsedElements(p, jsonLine), TypedKeyOrder);
    UntypedFormat(Without(ParsedElements(p, jsonLine), TypedKeyOrder));
  }

  /** Token texts without line breaks are joined unchanged. */
  lemma ConvertTokensPlain(tokens: seq<Token>, prefix: string, postfix: string)
    requires forall i, j :: 0 <= i < |tokens| && 0 <= j < |tokens[i].text| ==> !IsBreak(tokens[i].text[j])
    ensures ConvertTokens(tokens, prefix, postfix) == prefix + Join(", ", Texts(tokens)) + postfix
  {
    forall i | 0 <= i < |tokens| ensures StrippedTexts(tokens)[i] == Texts(tokens)[i] {
      WhereAll(tokens[i].text, NotBreak);
    }
    assert StrippedTexts(tokens) == Texts(tokens);
  }

  // ---------------------------------------------------------------------------------------
  // ConvertObjectToDict

  /** The keys `ConvertObjectToDict` adds only for a non-empty field. */
  predicate OptionalKey(k: string) {
    k == "tn" || k == "v" || k == "un" || k == "pid" || k == "tr"
  }

  /** An entry added only when the value `!string.IsNullOrEmpty`. */
  function Optional(key: string, value: NString): (r: Dict)
    ensures r == [] <==> IsNullOrEmpty(value)
    ensures |r| <= 1 && forall i :: 0 <= i < |r| ==> r[i].0 == key
    ensures r != [] ==> r[0].1 == value.value
  {
    if IsNullOrEmpty(value) then [] else [(key, value.value)]
  }

  /** The entries `ConvertObjectToDict` adds only when the field is not empty. */
  function OptionalFields(log: LogLine): Dict {
    Optional("tn", log.tenant) + Optional("v", log.version) + Optional("un", log.userName)
    + Optional("pid", log.pid) + Optional("tr", log.trace)
  }

  /** The export dictionary: the formatted time, the level, the logger and the full message
      always, then tenant, version, user, process and trace when they are not empty; a null
      level or logger is exported as the empty string. */
  function Export(p: Platform, log: LogLine): (r: Dict)
    ensures 4 <= |r| <= 9
    ensures r[0].0 == "t" && r[1].0 == "l" && r[2].0 == "lg" && r[3].0 == "mt"
    ensures forall i :: 4 <= i < |r| ==> OptionalKey(r[i].0)
  {
    OptionalFieldsUnique(log);
    [("t", p.formatTime(log.time)), ("l", OrEmpty(log.level)), ("lg", OrEmpty(log.logger)),
     ("mt", log.fullMessage)]
    + OptionalFields(log)
  }

  /** `if (!string.IsNullOrEmpty(value)) result.Add(key, value)`. */
  method AddOptional(result: Dict, key: string, value: NString) returns (result': Dict)
    ensures result' == result + Optional(key, value)
  {
    result' := result;
    if !IsNullOrEmpty(value) {
      result' := result' + [(key, value.value)];
    }
  }

  /** `ConvertObjectToDict`, with the null level and logger read as empty (see Findings). */
  method ConvertObjectToDict(p: Platform, log: LogLine) returns (result: Dict)
    ensures result == Export(p, log)
  {
    result := [];
    result := result + [("t", p.formatTime(log.time))];
    result := result + [("l", OrEmpty(log.level))];
    result := result + [("lg", OrEmpty(log.logger))];
    result := result + [("mt", log.fullMessage)];
    result := AddOptionalFields(result, log);
  }

  /** The five conditional `Add` calls of `ConvertObjectToDict`, in source order. */
  method AddOptionalFields(result: Dict, log: LogLine) returns (result': Dict)
    ensures result' == result + OptionalFields(log)
  {
    ghost var o1, o2, o3 := Optional("tn", log.tenant), Optional("v", log.version), Optional("un", log.userName);
    ghost var o4, o5 := Optional("pid", log.pid), Optional("tr", log.trace);
    result' := AddOptional(result, "tn", log.tenant);
    result' := AddOptional(result', "v", log.version);
    Assoc(result, o1, o2);
    result' := AddOptional(result', "un", log.userName);
    Assoc(result, o1 + o2, o3);
    result' := AddOptional(result', "pid", log.pid);
    Assoc(result, o1 + o2 + o3, o4);
    result' := AddOptional(result', "tr", log.trace);
    Assoc(result, o1 + o2 + o3 + o4, o5);
  }

  lemma LookupOptional(key: string, value: NString, k: string)
    ensures Lookup(Optional(key, value), k) == if k == key && !IsNullOrEmpty(value) then value else None
  {
  }

  /** An optional field reads back from the export exactly when it is not empty. */
  lemma {:induction false} OptionalFieldsLookup(log: LogLine, k: string)
    requires OptionalKey(k)
    ensures Lookup(OptionalFields(log), k) == if IsNullOrEmpty(TypedField(log, k)) then None else TypedField(log, k)
  {
    var o1, o2, o3 := Optional("tn", log.tenant), Optional("v", log.version), Optional("un", log.userName);
    var o4, o5 := Optional("pid", log.pid), Optional("tr", log.trace);
    LookupConcat(o1, o2, k);
    LookupConcat(o1 + o2, o3, k);
    LookupConcat(o1 + o2 + o3, o4, k);
    LookupConcat(o1 + o2 + o3 + o4, o5, k);
    LookupOptional("tn", log.tenant, k);
    LookupOptional("v", log.version, k);
    LookupOptional("un", log.userName, k);
    LookupOptional("pid", log.pid, k);
    LookupOptional("tr", log.trace, k);
  }

  /** The export always holds the formatted time and the full message under their keys. */
  lemma ExportLookupFixed(p: Platform, log: LogLine)
    ensures Lookup(Export(p, log), "t") == Some(p.formatTime(log.time))
    ensures Lookup(Export(p, log), "mt") == Some(log.fullMessage)
  {
    var head := [("t", p.formatTime(log.time)), ("l", OrEmpty(log.level)), ("lg", OrEmpty(log.logger)),
                 ("mt", log.fullMessage)];
    LookupConcat(head, OptionalFields(log), "t");
    LookupConcat(head, OptionalFields(log), "mt");
    assert Lookup(head, "mt") == Some(log.fullMessage) by {
      assert head[3] == ("mt", log.fullMessage);
    }
  }

  /** The export holds an optional field exactly when it is not empty. */
  lemma ExportLookup(p: Platform, log: LogLine, k: string)
    requires OptionalKey(k)
    ensures Lookup(Export(p, log), k) == if IsNullOrEmpty(TypedField(log, k)) then None else TypedField(log, k)
  {
    var head := [("t", p.formatTime(log.time)), ("l", OrEmpty(log.level)), ("lg", OrEmpty(log.logger)),
                 ("mt", log.fullMessage)];
    LookupConcat(head, OptionalFields(log), k);
    OptionalFieldsLookup(log, k);
    assert Lookup(head, k).None?;
  }

  /** The optional entries have distinct keys, each one of the optional keys. */
  lemma OptionalFieldsUnique(log: LogLine)
    ensures UniqueKeys(OptionalFields(log))
    ensures forall i :: 0 <= i < |OptionalFields(log)| ==> OptionalKey(OptionalFields(log)[i].0)
  {
    var o1, o2, o3 := Optional("tn", log.tenant), Optional("v", log.version), Optional("un", log.userName);
    var o4, o5 := Optional("pid", log.pid), Optional("tr", log.trace);
    UniqueConcat(o1, o2);
    UniqueConcat(o1 + o2, o3);
    UniqueConcat(o1 + o2 + o3, o4);
    UniqueConcat(o1 + o2 + o3 + o4, o5);
  }

  /** The export has distinct keys, so none of the `Add` calls of `ConvertObjectToDict` throws. */
  lemma ExportUnique(p: Platform, log: LogLine)
    ensures UniqueKeys(Export(p, log))
  {
    var head := [("t", p.formatTime(log.time)), ("l", OrEmpty(log.level)), ("lg", OrEmpty(log.logger)),
                 ("mt", log.fullMessage)];
    OptionalFieldsUnique(log);
    UniqueConcat(head, OptionalFields(log));
  }

  /** A record read from a well-formed line exports every optional field it carries: the
      renderings stored in the record are never empty. */
  lemma ExportKeepsFields(p: Platform, jsonLine: string, props: JsonProperties, i: nat)
    requires GetJsonValues(p, jsonLine) == Some(props) && i < |props|
    requires OptionalKey(props[i].0)
    requires !TimeFails(p, Rendered(props))
    ensures Lookup(Export(p, ConvertSpec(p, jsonLine)), props[i].0) == Stored(RenderValue(props[i].0, props[i].1))
  {
    TypedFieldFromProperty(p, jsonLine, props, i);
    ExportLookup(p, ConvertSpec(p, jsonLine), props[i].0);
  }

  /** Every value as a non-null reference. */
  function Lift(d: Dict): (r: seq<(string, NString)>)
    ensures |r| == |d| && forall i :: 0 <= i < |d| ==> r[i] == (d[i].0, Some(d[i].1))
  {
    seq(|d|, i requires 0 <= i < |d| => (d[i].0, Some(d[i].1)))
  }

  /** `ConvertObjectToDict` as written: `Level` and `Logger` are added even when null. */
  function ExportAsWritten(p: Platform, log: LogLine): (r: seq<(string, NString)>)
    ensures |r| >= 4 && r[1] == ("l", log.level) && r[2] == ("lg", log.logger)
  {
    [("t", Some(p.formatTime(log.time))), ("l", log.level), ("lg", log.logger),
     ("mt", Some(log.fullMessage))]
    + Lift(OptionalFields(log))
  }

  /** The entries with every value present, or None when some value is null: `TsvFormat`
      reads `value.Length` of every element and throws on a null one. */
  function NonNull(entries: seq<(string, NString)>): (r: Option<Dict>)
    ensures r.None? <==> exists i :: 0 <= i < |entries| && entries[i].1.None?
    ensures r.Some? ==> Lift(r.value) == entries
  {
    if entries == [] then Some([])
    else
      var init := NonNull(entries[..|entries| - 1]);
      var last := entries[|entries| - 1];
      assert forall i :: 0 <= i < |entries| - 1 ==> entries[..|entries| - 1][i] == entries[i];
      if init.None? || last.1.None? then None
      else Some(init.value + [(last.0, last.1.value)])
  }

  /** What the copy command puts on the clipboard for one record, as written: None when
      `TsvFormat` throws. */
  function CopyLineAsWritten(p: Platform, log: LogLine): Option<string> {
    match NonNull(ExportAsWritten(p, log))
    case None => None
    case Some(d) => Some(Format(d))
  }

  /** The copy line as intended: the export formatted like a log line. */
  function CopyLine(p: Platform, log: LogLine): (r: string)
    ensures Inlined(("t", p.formatTime(log.time))) ==> p.formatTime(log.time) <= r
  {
    var first := ("t", p.formatTime(log.time));
    var e := Export(p, log);
    assert e == [first] + e[1..];
    assert Cell(first) == p.formatTime(log.time) + "";
    if Inlined(first) then
      FormatStartsWithCell(first, e[1..]);
      Format(e)
    else Format(e)
  }

  /** As written, copying throws exactly for the records without a level or a logger. */
  lemma CopyAsWrittenThrows(p: Platform, log: LogLine)
    ensures CopyLineAsWritten(p, log).None? <==> log.level.None? || log.logger.None?
  {
    var entries := ExportAsWritten(p, log);
    if log.level.None? {
      assert entries[1].1.None?;
    } else if log.logger.None? {
      assert entries[2].1.None?;
    } else {
      assert entries == Lift(Export(p, log));
    }
  }

  /** Every line that does not parse as JSON yields such a record. */
  lemma CopyOfUnparsableThrows(p: Platform, jsonLine: string)
    requires GetJsonValues(p, jsonLine).None?
    ensures CopyLineAsWritten(p, ConvertSpec(p, jsonLine)).None?
  {
    UnparsableLine(p, jsonLine);
    CopyAsWrittenThrows(p, ConvertSpec(p, jsonLine));
  }

  /** Where the code as written does not throw, it copies the same line as the corrected one. */
  lemma CopyAgrees(p: Platform, log: LogLine)
    requires log.level.Some? && log.logger.Some?
    ensures CopyLineAsWritten(p, log) == Some(CopyLine(p, log))
  {
    var entries := ExportAsWritten(p, log);
    assert entries == Lift(Export(p, log));
    LiftInjective(NonNull(entries).value, Export(p, log));
  }

  lemma LiftInjective(a: Dict, b: Dict)
    requires Lift(a) == Lift(b)
    ensures a == b
  {
    assert |a| == |Lift(a)|;
    assert forall i :: 0 <= i < |a| ==> Lift(a)[i] == Lift(b)[i];
  }

  /** A line whose first entry is inlined begins with that entry's column. */
  lemma FormatStartsWithCell(first: Entry, tail: Dict)
    requires Inlined(first)
    ensures Cell(first) <= Format([first] + tail)
  {
    WhereConcat([first], tail, Inlined);
    assert Where([first], Inlined) == [first] by { WhereSnoc([], first, Inlined); }
    var inl := Where(tail, Inlined);
    CellsConcat([first], inl);
    assert Cells([first]) == [Cell(first)];
    if inl == [] {
      assert [Cell(first)] + Cells(inl) == [Cell(first)];
    } else {
      JoinConcat(" ", [Cell(first)], Cells(inl));
    }
  }

  /** The copied line begins with the formatted time, its first column. */
  lemma CopyLineStartsWithTime(p: Platform, log: LogLine)
    requires Inlined(("t", p.formatTime(log.time)))
    ensures p.formatTime(log.time) <= CopyLine(p, log)
  {
  }
}
