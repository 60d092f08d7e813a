/**
 * ViewModels/Editor/ImportViewModel.cs: importing a hotspot's title and
 * description from a text file. The first line becomes the title and the
 * remaining lines the description; before importing, the editor is asked how
 * much existing text would be overwritten. The file's text is an input.
 */
module Import {

  /** .NET `char.IsWhiteSpace`: the Unicode space, line and paragraph separators plus U+0009 to U+000D and U+0085. */
  predicate IsWhiteSpace(c: char)
  {
    || ('\U{9}' <= c <= '\U{D}') || c == ' ' || c == '\U{85}' || c == '\U{A0}' || c == '\U{1680}'
    || ('\U{2000}' <= c <= '\U{200A}') || c == '\U{2028}' || c == '\U{2029}' || c == '\U{202F}'
    || c == '\U{205F}' || c == '\U{3000}'
  }

  /** `string.IsNullOrWhiteSpace` on a non-null string: every character is white space. */
  predicate IsBlank(s: string)
  {
    forall i :: 0 <= i < |s| ==> IsWhiteSpace(s[i])
  }

  /** Where the leading white space ends. */
  function StartIndex(s: string): (k: nat)
    ensures k <= |s| && IsBlank(s[..k])
    ensures k < |s| ==> !IsWhiteSpace(s[k])
  {
    if s == [] || !IsWhiteSpace(s[0]) then 0
    else
      var k := StartIndex(s[1..]);
      assert s[..k + 1] == [s[0]] + s[1..][..k];
      k + 1
  }

  /** Where the trailing white space starts. */
  function EndIndex(s: string): (k: nat)
    ensures k <= |s| && IsBlank(s[k..])
    ensures k > 0 ==> !IsWhiteSpace(s[k - 1])
  {
    if s == [] || !IsWhiteSpace(s[|s| - 1]) then |s|
    else
      var init := s[..|s| - 1];
      var k := EndIndex(init);
      assert s[k..] == init[k..] + [s[|s| - 1]];
      k
  }

  /** `string.Trim`: drop white space at both ends; what is left neither starts nor ends with white space. */
  function Trim(s: string): (r: string)
    ensures exists i, j :: 0 <= i <= j <= |s| && r == s[i..j] && IsBlank(s[..i]) && IsBlank(s[j..])
    ensures r == [] || (!IsWhiteSpace(r[0]) && !IsWhiteSpace(r[|r| - 1]))
  {
    var i, j := StartIndex(s), EndIndex(s);
    if i >= j then
      assert forall m :: j <= m < |s| ==> IsWhiteSpace(s[m]) by {
        forall m | j <= m < |s| ensures IsWhiteSpace(s[m]) {
          assert s[j..][m - j] == s[m];
        }
      }
      assert s[..|s|] == s[..i] && s[|s|..|s|] == [] && IsBlank(s[|s|..]);
      []
    else
      assert s[i..j][0] == s[i] && s[i..j][j - i - 1] == s[j - 1];
      assert IsBlank(s[..i]) && IsBlank(s[j..]);
      s[i..j]
  }

  /** A trimmed string is empty exactly when the original is blank. */
  lemma TrimEmptyIffBlank(s: string)
    ensures Trim(s) == [] <==> IsBlank(s)
  {
    var i, j :| 0 <= i <= j <= |s| && Trim(s) == s[i..j] && IsBlank(s[..i]) && IsBlank(s[j..]);
    if Trim(s) == [] {
      forall k | 0 <= k < |s| ensures IsWhiteSpace(s[k]) {
        if k < i {
          assert s[..i][k] == s[k];
        } else {
          assert s[j..][k - j] == s[k];
        }
      }
    }
  }

  /** A string that neither starts nor ends with white space is its own trim. */
  lemma TrimmedIsFixed(t: string)
    requires t == [] || (!IsWhiteSpace(t[0]) && !IsWhiteSpace(t[|t| - 1]))
    ensures Trim(t) == t
  {
    assert StartIndex(t) == 0;
    assert EndIndex(t) == |t|;
  }

  /** Trimming twice is the same as trimming once. */
  lemma TrimIdempotent(s: string)
    ensures Trim(Trim(s)) == Trim(s)
  {
    TrimmedIsFixed(Trim(s));
  }

  /** `string.Join("\n", lines)`. */
  function Join(lines: seq<string>): (r: string)
    ensures |lines| == 1 ==> r == lines[0]
  {
    if lines == [] then ""
    else if |lines| == 1 then lines[0]
    else lines[0] + "\n" + Join(lines[1..])
  }

  /** A line ends at a line feed or a carriage return. */
  predicate IsLineBreak(c: char)
  {
    c == '\n' || c == '\r'
  }

  /** A line as `ReadAllLines` returns it: no line break inside. */
  predicate NoBreaks(line: string)
  {
    forall i :: 0 <= i < |line| ==> !IsLineBreak(line[i])
  }

  /** Where the first line of `s` ends: its first line break, or the end of the text. */
  function LineEnd(s: string): (k: nat)
    ensures k <= |s| && NoBreaks(s[..k])
    ensures k < |s| ==> IsLineBreak(s[k])
  {
    if s == [] || IsLineBreak(s[0]) then 0
    else
      var k := LineEnd(s[1..]);
      assert s[..k + 1] == [s[0]] + s[1..][..k];
      k + 1
  }

  /**
   * `File.ReadAllLines` on the text of a file: the lines, each ended by "\n",
   * "\r" or "\r\n" or by the end of the text. An empty text has no lines, and
   * a line break at the very end does not start another line.
   */
  function ReadAllLines(s: string): (lines: seq<string>)
    ensures lines == [] <==> s == []
    ensures forall k :: 0 <= k < |lines| ==> NoBreaks(lines[k])
    decreases |s|
  {
    if s == [] then []
    else
      var k := LineEnd(s);
      var next := if k == |s| then |s|
                  else if s[k] == '\r' && k + 1 < |s| && s[k + 1] == '\n' then k + 2
                  else k + 1;
      [s[..k]] + ReadAllLines(s[next..])
  }

  /** A non-empty text without line breaks is one line. */
  lemma SingleLine(a: string)
    requires a != [] && NoBreaks(a)
    ensures ReadAllLines(a) == [a]
  {
    assert LineEnd(a) == |a|;
    assert a[..|a|] == a;
  }

  /** A line followed by a line feed comes first, then the lines of what follows. */
  lemma FirstLineLf(a: string, b: string)
    requires NoBreaks(a)
    ensures ReadAllLines(a + "\n" + b) == [a] + ReadAllLines(b)
  {
    var s := a + "\n" + b;
    assert s[|a|] == '\n';
    assert s[..|a|] == a;
    assert LineEnd(s) == |a|;
    assert s[|a| + 1..] == b;
  }

  /** A line followed by a carriage return and a line feed comes first, then the lines of what follows. */
  lemma FirstLineCrLf(a: string, b: string)
    requires NoBreaks(a)
    ensures ReadAllLines(a + "\r\n" + b) == [a] + ReadAllLines(b)
  {
    var s := a + "\r\n" + b;
    assert s[|a|] == '\r' && s[|a| + 1] == '\n';
    assert s[..|a|] == a;
    assert LineEnd(s) == |a|;
    assert s[|a| + 2..] == b;
  }

  /** A line break at the end of the text does not add an empty last line. */
  lemma TrailingBreakAddsNoLine(a: string)
    requires NoBreaks(a)
    ensures ReadAllLines(a + "\n") == [a]
    ensures ReadAllLines(a + "\r\n") == [a]
  {
    FirstLineLf(a, "");
    FirstLineCrLf(a, "");
    assert a + "\n" + "" == a + "\n";
    assert a + "\r\n" + "" == a + "\r\n";
  }

  /**
   * Joining lines with line feeds and reading the text back gives the lines
   * again, provided no line holds a line break and the last line is not empty
   * (an empty last line would be lost, as a final line break adds no line).
   */
  lemma {:induction false} ReadAllLinesOfJoin(lines: seq<string>)
    requires lines != [] && lines[|lines| - 1] != []
    requires forall k :: 0 <= k < |lines| ==> NoBreaks(lines[k])
    ensures ReadAllLines(Join(lines)) == lines
  {
    if |lines| == 1 {
      SingleLine(lines[0]);
    } else {
      ReadAllLinesOfJoin(lines[1..]);
      FirstLineLf(lines[0], Join(lines[1..]));
      assert [lines[0]] + lines[1..] == lines;
    }
  }

  /** How much existing text an import would overwrite. */
  datatype ImportWarningLevel = None | Title | Description | Both

  /** The title and description being edited. */
  class DescriptionEditor {
    var title: string
    var description: string

    constructor (title: string, description: string)
      ensures this.title == title && this.description == description
    {
      this.title := title;
      this.description := description;
    }
  }

  class ImportViewModel {
    const descriptionEditor: DescriptionEditor

    constructor (descriptionEditor: DescriptionEditor)
      ensures this.descriptionEditor == descriptionEditor
    {
      this.descriptionEditor := descriptionEditor;
    }

    /**
     * `IsImportSafe`: no warning when title and description are both blank,
     * otherwise a warning naming what is not blank.
     */
    function IsImportSafe(): (level: ImportWarningLevel)
      reads descriptionEditor
      ensures level == None <==> IsBlank(descriptionEditor.title) && IsBlank(descriptionEditor.description)
      ensures level == Title <==> !IsBlank(descriptionEditor.title) && IsBlank(descriptionEditor.description)
      ensures level == Description <==> IsBlank(descriptionEditor.title) && !IsBlank(descriptionEditor.description)
      ensures level == Both <==> !IsBlank(descriptionEditor.title) && !IsBlank(descriptionEditor.description)
    {
      var titleEmpty := IsBlank(descriptionEditor.title);
      var descriptionEmpty := IsBlank(descriptionEditor.description);
      match (titleEmpty, descriptionEmpty)
      case (true, true) => None
      case (false, true) => Title
      case (true, false) => Description
      case (false, false) => Both
    }

    /**
     * `ImportFromFile`: the file's text is read into lines; an empty file
     * changes nothing. Otherwise the title is the first line trimmed, and the
     * description the remaining lines joined with line feeds and trimmed, or
     * empty for a one-line file.
     */
    method ImportFromFile(text: string)
      modifies descriptionEditor
      ensures text == [] ==> unchanged(descriptionEditor)
      ensures text != [] ==> var lines := ReadAllLines(text);
                && descriptionEditor.title == Trim(lines[0])
                && descriptionEditor.description == (if |lines| > 1 then Trim(Join(lines[1..])) else "")
    {
      var lines := ReadAllLines(text);
      if |lines| == 0 {
        return;
      }
      descriptionEditor.title := Trim(lines[0]);
      descriptionEditor.description := if |lines| > 1 then Trim(Join(lines[1..])) else "";
    }
  }
}
