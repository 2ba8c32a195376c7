/** The column formatter of LogReader/Converter.cs (`TsvFormat`): renders an ordered
    key/value dictionary as one line of space-separated, partly fixed-width columns, with
    multi-line values moved to the end. */
module Formatter {
  import opened Wrappers
  import opened Seqs
  import opened Text
  import opened Dict

  /** `defaultLogLineElementWidth`: pid 10, l 5, lg 30, tr 20; other keys have no width. */
  function Width(key: string): Option<nat> {
    if key == "pid" then Some(10)
    else if key == "l" then Some(5)
    else if key == "lg" then Some(30)
    else if key == "tr" then Some(20)
    else None
  }

  /** `logLineElementPostfix`: the logger column is followed by " |". */
  function Postfix(key: string): string {
    if key == "lg" then " |" else ""
  }

  /** A value that begins with a line feed is deferred to the trailing region. */
  predicate Deferred(e: Entry) {
    |e.1| > 0 && e.1[0] == '\n'
  }

  predicate Inlined(e: Entry) {
    !Deferred(e)
  }

  /** The value fitted to the key's width, when the key has one. */
  function Fitted(key: string, value: string): string {
    match Width(key)
    case Some(w) => FitWidth(value, w)
    case None => value
  }

  /** One inline column: the fitted value, then the key's postfix. */
  function Cell(e: Entry): string {
    Fitted(e.0, e.1) + Postfix(e.0)
  }

  function Cells(d: Dict): (r: seq<string>)
    ensures |r| == |d|
  {
    seq(|d|, i requires 0 <= i < |d| => Cell(d[i]))
  }

  function Values(d: Dict): (r: seq<string>)
    ensures |r| == |d|
  {
    seq(|d|, i requires 0 <= i < |d| => d[i].1)
  }

  /** The inline part: the columns of the entries that are not deferred, one space apart. */
  function InlinePart(d: Dict): string {
    Join(" ", Cells(Where(d, Inlined)))
  }

  /** The trailing region: the deferred values, verbatim, in encounter order. */
  function TrailingPart(d: Dict): string {
    Flatten(Values(Where(d, Deferred)))
  }

  /** The line that `TsvFormat` produces, stated declaratively. */
  function Format(d: Dict): string {
    InlinePart(d) + TrailingPart(d)
  }

  lemma CellsConcat(a: Dict, b: Dict)
    ensures Cells(a + b) == Cells(a) + Cells(b)
  {
    assert forall i :: 0 <= i < |a + b| ==> Cells(a + b)[i] == (Cells(a) + Cells(b))[i];
  }

  lemma ValuesConcat(a: Dict, b: Dict)
    ensures Values(a + b) == Values(a) + Values(b)
  {
    assert forall i :: 0 <= i < |a + b| ==> Values(a + b)[i] == (Values(a) + Values(b))[i];
  }

  /** How the trailing region grows when one more entry is enumerated. */
  lemma TrailingSnoc(d: Dict, e: Entry)
    ensures TrailingPart(d + [e]) == TrailingPart(d) + (if Deferred(e) then e.1 else "")
  {
    var def := Where(d, Deferred);
    WhereSnoc(d, e, Deferred);
    if Deferred(e) {
      ValuesConcat(def, [e]);
      assert Values([e]) == [e.1];
      FlattenConcat(Values(def), [e.1]);
      assert [e.1][..0] == [];
    } else {
      assert def + [] == def;
    }
  }

  /** How the inline part grows when one more entry is enumerated. */
  lemma InlineSnoc(d: Dict, e: Entry)
    ensures Where(d + [e], Inlined) == Where(d, Inlined) + (if Inlined(e) then [e] else [])
    ensures InlinePart(d + [e]) ==
      if Deferred(e) then InlinePart(d)
      else if Where(d, Inlined) == [] then Cell(e)
      else InlinePart(d) + " " + Cell(e)
  {
    var inl := Where(d, Inlined);
    WhereSnoc(d, e, Inlined);
    if Deferred(e) {
      assert inl + [] == inl;
    } else {
      CellsConcat(inl, [e]);
      assert Cells([e]) == [Cell(e)];
      if inl != [] {
        assert (Cells(inl) + [Cell(e)])[..|Cells(inl)|] == Cells(inl);
      }
    }
  }

  /** One enumeration step of `TsvFormat` over a prefix of the entries. */
  lemma PrefixStep(d: Dict, i: nat)
    requires i < |d|
    ensures (Where(d[..i + 1], Inlined) == []) == (Where(d[..i], Inlined) == [] && Deferred(d[i]))
    ensures InlinePart(d[..i + 1]) ==
      if Deferred(d[i]) then InlinePart(d[..i])
      else if Where(d[..i], Inlined) == [] then Cell(d[i])
      else InlinePart(d[..i]) + " " + Cell(d[i])
    ensures TrailingPart(d[..i + 1]) == TrailingPart(d[..i]) + (if Deferred(d[i]) then d[i].1 else "")
  {
    assert d[..i + 1] == d[..i] + [d[i]];
    InlineSnoc(d[..i], d[i]);
    TrailingSnoc(d[..i], d[i]);
  }

  lemma Append3(a: string, b: string, c: string)
    ensures (a + b) + c == a + (b + c)
  {
  }

  /** `TsvFormat`: one pass over the entries with a `firstElement` flag and an accumulated
      `onNewLine` string, appended after the inline columns. */
  method TsvFormat(elements: Dict) returns (line: string)
    ensures line == Format(elements)
  {
    var sb := "";
    var firstElement := true;
    var onNewLine := "";
    for i := 0 to |elements|
      invariant sb == InlinePart(elements[..i])
      invariant firstElement == (Where(elements[..i], Inlined) == [])
      invariant onNewLine == TrailingPart(elements[..i])
    {
      var key := elements[i].0;
      var value := elements[i].1;
      PrefixStep(elements, i);
      if |value| > 0 && value[0] == '\n' {
        onNewLine := onNewLine + value;
        continue;
      }
      value := Fitted(key, value);
      if firstElement {
        firstElement := false;
      } else {
        sb := sb + " ";
      }
      Append3(sb, value, Postfix(key));
      sb := sb + value;
      sb := sb + Postfix(key);
    }
    assert elements[..|elements|] == elements;
    if onNewLine != "" {
      sb := sb + onNewLine;
    }
    line := sb;
  }

  /** A deferred value is appended verbatim at the very end of the line, whatever precedes it. */
  lemma FormatAppendDeferred(d: Dict, e: Entry)
    requires Deferred(e)
    ensures Format(d + [e]) == Format(d) + e.1
  {
    InlineSnoc(d, e);
    TrailingSnoc(d, e);
  }

  /** An inline value becomes the last column, one space after the previous one (none if it is
      the first), and the trailing region stays after it. */
  lemma FormatAppendInline(d: Dict, e: Entry)
    requires Inlined(e)
    ensures Format(d + [e]) ==
      (if Where(d, Inlined) == [] then Cell(e) else InlinePart(d) + " " + Cell(e)) + TrailingPart(d)
  {
    InlineSnoc(d, e);
    TrailingSnoc(d, e);
  }

  /** Without multi-line values, the line is the columns joined by single spaces. */
  lemma {:induction false} FormatAllInline(d: Dict)
    requires forall i :: 0 <= i < |d| ==> Inlined(d[i])
    ensures Format(d) == Join(" ", Cells(d))
  {
    WhereAll(d, Inlined);
    WhereNone(d, Deferred);
  }

  /** A key with a configured width always fills exactly that many characters, taken from the
      end of a longer value or space-padded on the left, followed by its postfix. */
  lemma CellWidth(e: Entry, w: nat)
    requires Width(e.0) == Some(w)
    ensures |Cell(e)| == w + |Postfix(e.0)|
    ensures |e.1| > w ==> Cell(e)[..w] == e.1[|e.1| - w..]
    ensures |e.1| <= w ==> Cell(e)[w - |e.1|..w] == e.1
    ensures |e.1| <= w ==> forall i :: 0 <= i < w - |e.1| ==> Cell(e)[i] == ' '
    ensures e.0 == "lg" ==> Cell(e)[w..] == " |"
  {
    assert Cell(e) == FitWidth(e.1, w) + Postfix(e.0);
    assert |FitWidth(e.1, w)| == w;
  }

  /** A key without a width is emitted verbatim and, other than the logger, without postfix. */
  lemma CellVerbatim(e: Entry)
    requires Width(e.0) == None
    ensures Cell(e) == e.1
  {
  }

  /** The column width a key occupies when every key of a row has a configured width. */
  function RowWidth(d: Dict): nat
    requires forall i :: 0 <= i < |d| ==> Width(d[i].0).Some?
  {
    if d == [] then 0
    else RowWidth(d[..|d| - 1]) + Width(d[|d| - 1].0).value + |Postfix(d[|d| - 1].0)|
  }

  /** A row made only of fixed-width single-line columns has a fixed length: the widths, the
      postfixes and one space between neighbouring columns. */
  lemma {:induction false} FormatFixedWidthRow(d: Dict)
    requires d != []
    requires forall i :: 0 <= i < |d| ==> Width(d[i].0).Some? && Inlined(d[i])
    ensures |Format(d)| == RowWidth(d) + |d| - 1
  {
    FormatAllInline(d);
    JoinLength(" ", Cells(d));
    SumCellLengths(d);
  }

  lemma {:induction false} SumCellLengths(d: Dict)
    requires forall i :: 0 <= i < |d| ==> Width(d[i].0).Some?
    ensures SumLengths(Cells(d)) == RowWidth(d)
  {
    if d != [] {
      var d' := d[..|d| - 1];
      SumCellLengths(d');
      CellsConcat(d', [d[|d| - 1]]);
      assert d' + [d[|d| - 1]] == d;
      assert Cells(d)[..|d| - 1] == Cells(d');
      CellWidth(d[|d| - 1], Width(d[|d| - 1].0).value);
    }
  }

  /** The single-entry dictionary `{ "": s }` renders as `s` itself. */
  lemma FormatUnnamed(s: string)
    ensures Format([("", s)]) == s
  {
    var e := ("", s);
    InlineSnoc([], e);
    TrailingSnoc([], e);
    assert [] + [e] == [e];
  }
}
