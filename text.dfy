/** The .NET string operations the core relies on, written out over `seq<char>`. */
module Text {
  import opened Seqs

  /** A line-break character: carriage return or line feed. */
  predicate IsBreak(c: char) {
    c == '\r' || c == '\n'
  }

  predicate NotBreak(c: char) {
    !IsBreak(c)
  }

  /** The predicate "differs from `c`", as a value that filters can share. */
  function NotChar(c: char): char -> bool {
    x => x != c
  }

  function Spaces(n: nat): (r: string)
    ensures |r| == n
    ensures forall i :: 0 <= i < n ==> r[i] == ' '
  {
    seq(n, _ => ' ')
  }

  /** `String.PadLeft(width)`: spaces on the left up to `width`; a value at least as long is kept. */
  function PadLeft(s: string, width: nat): (r: string)
    ensures |r| == if |s| < width then width else |s|
    ensures r[|r| - |s|..] == s
    ensures forall i :: 0 <= i < |r| - |s| ==> r[i] == ' '
  {
    if |s| < width then Spaces(width - |s|) + s else s
  }

  /** A fixed-width column: a longer value keeps its last `width` characters
      (`Substring(Length - width, width)`), a shorter one is left-padded. */
  function FitWidth(s: string, width: nat): (r: string)
    ensures |r| == width
    ensures |s| > width ==> r == s[|s| - width..]
    ensures |s| <= width ==> r[width - |s|..] == s
    ensures |s| <= width ==> forall i :: 0 <= i < width - |s| ==> r[i] == ' '
  {
    if |s| > width then s[|s| - width..] else PadLeft(s, width)
  }

  /** `String.Join(sep, parts)`: the parts with `sep` between each neighbouring pair. */
  function Join(sep: string, parts: seq<string>): string
  {
    if |parts| == 0 then ""
    else if |parts| == 1 then parts[0]
    else Join(sep, parts[..|parts| - 1]) + sep + parts[|parts| - 1]
  }

  /** One more part adds a separator and the part, except after nothing. */
  lemma JoinSnoc(sep: string, parts: seq<string>, x: string)
    ensures Join(sep, parts + [x]) == if parts == [] then x else Join(sep, parts) + sep + x
  {
    assert (parts + [x])[..|parts|] == parts;
  }

  /** Joining two non-empty lists puts exactly one separator at the seam. */
  lemma {:induction false} JoinConcat(sep: string, a: seq<string>, b: seq<string>)
    requires a != [] && b != []
    ensures Join(sep, a + b) == Join(sep, a) + sep + Join(sep, b)
  {
    if |b| == 1 {
      assert (a + b)[..|a + b| - 1] == a;
    } else {
      var b' := b[..|b| - 1];
      assert (a + b)[..|a + b| - 1] == a + b';
      JoinConcat(sep, a, b');
    }
  }

  /** A join of break-free parts with a break-free separator holds no line break. */
  lemma {:induction false} JoinNoBreaks(sep: string, parts: seq<string>)
    requires forall j :: 0 <= j < |sep| ==> !IsBreak(sep[j])
    requires forall i, j :: 0 <= i < |parts| && 0 <= j < |parts[i]| ==> !IsBreak(parts[i][j])
    ensures forall j :: 0 <= j < |Join(sep, parts)| ==> !IsBreak(Join(sep, parts)[j])
  {
    if |parts| > 1 {
      var init := parts[..|parts| - 1];
      JoinNoBreaks(sep, init);
      var a := Join(sep, init);
      var x := parts[|parts| - 1];
      forall j | 0 <= j < |a + sep + x| ensures !IsBreak((a + sep + x)[j]) {
        if j >= |a| + |sep| {
          assert (a + sep + x)[j] == x[j - |a| - |sep|];
        }
      }
    }
  }

  function SumLengths(parts: seq<string>): nat
  {
    if parts == [] then 0 else SumLengths(parts[..|parts| - 1]) + |parts[|parts| - 1]|
  }

  /** A join is as long as its parts plus one separator for each gap. */
  lemma {:induction false} JoinLength(sep: string, parts: seq<string>)
    requires parts != []
    ensures |Join(sep, parts)| == SumLengths(parts) + (|parts| - 1) * |sep|
  {
    if |parts| == 1 {
      assert parts[..0] == [];
    } else {
      JoinLength(sep, parts[..|parts| - 1]);
    }
  }

  /** Ordinal `String.Replace(pattern, replacement)`: every occurrence, found left to right
      without overlap, is replaced. */
  function Replace(s: string, pattern: string, replacement: string): (r: string)
    requires pattern != []
    ensures |replacement| <= |pattern| ==> |r| <= |s|
    decreases |s|
  {
    if |s| < |pattern| then s
    else if s[..|pattern|] == pattern then replacement + Replace(s[|pattern|..], pattern, replacement)
    else [s[0]] + Replace(s[1..], pattern, replacement)
  }

  /** `pattern` starts at index `i` of `s`. */
  predicate OccursAt(s: string, pattern: string, i: nat) {
    i + |pattern| <= |s| && s[i..i + |pattern|] == pattern
  }

  /** Replacing a pattern that does not occur leaves the text as it is. */
  lemma {:induction false} ReplaceAbsent(s: string, pattern: string, replacement: string)
    requires pattern != []
    requires forall i: nat :: !OccursAt(s, pattern, i)
    ensures Replace(s, pattern, replacement) == s
    decreases |s|
  {
    if |s| >= |pattern| {
      assert !OccursAt(s, pattern, 0);
      assert s[..|pattern|] == s[0..0 + |pattern|];
      forall i: nat ensures !OccursAt(s[1..], pattern, i) {
        assert !OccursAt(s, pattern, i + 1);
        if i + |pattern| <= |s[1..]| {
          assert s[1..][i..i + |pattern|] == s[i + 1..i + 1 + |pattern|];
        }
      }
      ReplaceAbsent(s[1..], pattern, replacement);
    }
  }

  /** Replacing a one-character pattern by nothing is deleting that character. */
  lemma {:induction false} ReplaceCharByNothing(s: string, c: char)
    ensures Replace(s, [c], "") == Where(s, NotChar(c))
    decreases |s|
  {
    if |s| >= 1 {
      ReplaceCharByNothing(s[1..], c);
      assert s == [s[0]] + s[1..];
      WhereConcat([s[0]], s[1..], NotChar(c));
      assert [s[0]][..0] == [];
      assert s[..1] == [s[0]];
    }
  }

  /** `Replace("\n", "").Replace("\r", "")`: the text with every line break deleted. */
  function StripBreaks(s: string): (r: string)
    ensures r == Where(s, NotBreak)
    ensures forall i :: 0 <= i < |r| ==> !IsBreak(r[i])
  {
    var r := Replace(Replace(s, "\n", ""), "\r", "");
    ReplaceCharByNothing(s, '\n');
    ReplaceCharByNothing(Where(s, NotChar('\n')), '\r');
    WhereTwice(s, NotChar('\n'), NotChar('\r'), NotBreak);
    r
  }

  /** The text before the first line break (all of it when there is none). */
  function FirstLine(s: string): (r: string)
    ensures r <= s
    ensures forall i :: 0 <= i < |r| ==> !IsBreak(r[i])
    ensures |r| < |s| ==> IsBreak(s[|r|])
  {
    if s == [] || IsBreak(s[0]) then [] else [s[0]] + FirstLine(s[1..])
  }

  /** `Split(new[] { '\r', '\n' })`: the pieces between line-break characters; a "\r\n" pair
      yields an empty piece between its two characters. */
  function SplitBreaks(s: string): (r: seq<string>)
    ensures |r| >= 1
    ensures r[0] == FirstLine(s)
    ensures forall i, j :: 0 <= i < |r| && 0 <= j < |r[i]| ==> !IsBreak(r[i][j])
    decreases |s|
  {
    var f := FirstLine(s);
    if |f| == |s| then [s] else [f] + SplitBreaks(s[|f| + 1..])
  }

  /** There is one piece more than there are line-break characters. */
  lemma {:induction false} SplitBreaksCount(s: string)
    ensures |SplitBreaks(s)| == |Where(s, IsBreak)| + 1
    decreases |s|
  {
    var f := FirstLine(s);
    if |f| < |s| {
      var rest := s[|f| + 1..];
      SplitBreaksCount(rest);
      assert s == f + [s[|f|]] + rest;
      WhereConcat(f + [s[|f|]], rest, IsBreak);
      WhereConcat(f, [s[|f|]], IsBreak);
      assert [s[|f|]][..0] == [];
      WhereNone(f, IsBreak);
    } else {
      assert f == s;
      WhereNone(s, IsBreak);
    }
  }

  /** `char.IsWhiteSpace`: the Unicode space separators (category Zs), the line and paragraph
      separators and the control characters U+0009 to U+000D and U+0085. */
  predicate IsWhiteSpace(c: char) {
    || ('\U{0009}' <= c <= '\U{000D}')
    || c == ' ' || c == '\U{0085}' || c == '\U{00A0}' || c == '\U{1680}'
    || ('\U{2000}' <= c <= '\U{200A}')
    || c == '\U{2028}' || c == '\U{2029}' || c == '\U{202F}' || c == '\U{205F}' || c == '\U{3000}'
  }

  function TrimStart(s: string): (r: string)
    ensures |r| <= |s| && r == s[|s| - |r|..]
    ensures r != [] ==> !IsWhiteSpace(r[0])
    ensures forall i :: 0 <= i < |s| - |r| ==> IsWhiteSpace(s[i])
  {
    if s != [] && IsWhiteSpace(s[0]) then TrimStart(s[1..]) else s
  }

  function TrimEnd(s: string): (r: string)
    ensures |r| <= |s| && r == s[..|r|]
    ensures r != [] ==> !IsWhiteSpace(r[|r| - 1])
    ensures forall i :: |r| <= i < |s| ==> IsWhiteSpace(s[i])
  {
    if s != [] && IsWhiteSpace(s[|s| - 1]) then TrimEnd(s[..|s| - 1]) else s
  }

  /** `String.Trim()`: the text without leading and trailing white space. */
  function Trim(s: string): (r: string)
    ensures r != [] ==> !IsWhiteSpace(r[0]) && !IsWhiteSpace(r[|r| - 1])
    ensures LeadingWhiteSpace(s) + |r| <= |s|
    ensures r == s[LeadingWhiteSpace(s)..LeadingWhiteSpace(s) + |r|]
    ensures forall i :: 0 <= i < LeadingWhiteSpace(s) ==> IsWhiteSpace(s[i])
    ensures forall i :: LeadingWhiteSpace(s) + |r| <= i < |s| ==> IsWhiteSpace(s[i])
  {
    TrimEnd(TrimStart(s))
  }

  /** How many characters `TrimStart` removes. */
  function LeadingWhiteSpace(s: string): nat
  {
    |s| - |TrimStart(s)|
  }

  /** A directory separator on Windows. */
  predicate IsSeparator(c: char) {
    c == '\\' || c == '/'
  }

  /** `Path.GetFileName`: the part after the last directory separator. */
  function FileName(path: string): (r: string)
    ensures |r| <= |path| && r == path[|path| - |r|..]
    ensures forall i :: 0 <= i < |r| ==> !IsSeparator(r[i])
    ensures |r| < |path| ==> IsSeparator(path[|path| - |r| - 1])
  {
    if path == [] || IsSeparator(path[|path| - 1]) then []
    else FileName(path[..|path| - 1]) + [path[|path| - 1]]
  }

  /** A file name is its own file name. */
  lemma {:induction false} FileNameIdempotent(path: string)
    ensures FileName(FileName(path)) == FileName(path)
  {
    var n := FileName(path);
    assert forall i :: 0 <= i < |n| ==> !IsSeparator(n[i]);
    NoSeparatorIsFileName(n);
  }

  lemma {:induction false} NoSeparatorIsFileName(s: string)
    requires forall i :: 0 <= i < |s| ==> !IsSeparator(s[i])
    ensures FileName(s) == s
  {
    if s != [] {
      NoSeparatorIsFileName(s[..|s| - 1]);
    }
  }

  /** `String.LastIndexOf(c)`: the last index holding `c`, or -1. */
  function LastIndexOf(s: string, c: char): (r: int)
    ensures -1 <= r < |s|
    ensures r >= 0 ==> s[r] == c
    ensures forall i :: r < i < |s| ==> s[i] != c
  {
    if s == [] then -1
    else if s[|s| - 1] == c then |s| - 1
    else LastIndexOf(s[..|s| - 1], c)
  }

  /** `Path.GetFileNameWithoutExtension`: the file name up to its last '.'. */
  function FileNameWithoutExtension(path: string): (r: string)
    ensures r <= FileName(path)
    ensures r == FileName(path) <==> '.' !in FileName(path)
    ensures '.' in FileName(path) ==>
      |r| < |FileName(path)| && FileName(path)[|r|] == '.' && '.' !in FileName(path)[|r| + 1..]
  {
    var name := FileName(path);
    var dot := LastIndexOf(name, '.');
    if dot < 0 then name else name[..dot]
  }
}
