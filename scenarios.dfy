/**
 * Worked diffs. Each states the outcome of `validate_diff` on a small diff,
 * as the code behaves: the marker lines are ordinary added lines.
 */
module Scenarios {
  import opened Wrappers
  import opened Text
  import opened CommentSyntax
  import opened Markers
  import opened DiffValidator
  import opened DiffValidatorProperties

  /**
   * A diff of one added line, with no header before it: it fails exactly when
   * the line lacks the confidentiality text, with one error at line 1.
   */
  lemma SingleAddedLine(content: string)
    requires !StartsWith(content, "++")
    requires content == [] || (!IsSpace(content[0]) && !IsSpace(content[|content| - 1]))
    ensures ValidateDiffSpec(["+" + content])
         == if IsSubstring(Confidential, content) then Returned(true, [])
            else Returned(false, [Error(MissingConfidential, Some(1), content)])
  {
    var line := "+" + content;
    assert line[..1] == "+";
    assert |line| >= 3 ==> line[..3] == "+" + content[..2];
    assert line[1..] == content;
    StripUnchanged(content);
    AddedLineRecorded(Initial, line, 1);
    ScanContinues(Initial, [line], 0, Initial.(pending := [Entry(content, 1)]));
  }

  /**
   * An added line with no confidentiality text and no header before it.
   * The literal is a parameter fixed by `requires` only to keep the proof
   * small; the lemma is about that one value.
   */
  lemma UnmarkedLine(lines: seq<string>)
    requires lines == ["+int x = 1;"]
    ensures ValidateDiffSpec(lines)
         == Returned(false, [Error(MissingConfidential, Some(1), "int x = 1;")])
  {
    var content := "int x = 1;";
    assert "+" + content == "+int x = 1;";
    assert |content| < |Confidential| && !IsSubstring(Confidential, content);
    assert content[..2][0] != '+';
    SingleAddedLine(content);
  }

  /**
   * A Begin marker never closed: it is no marker, so there is no unclosed-region error, only the missing text.
   * The literal is a parameter fixed by `requires` only to keep the proof
   * small; the lemma is about that one value.
   */
  lemma UnclosedBegin(lines: seq<string>)
    requires lines == ["+// Arista Begin"]
    ensures ValidateDiffSpec(lines)
         == Returned(false, [Error(MissingConfidential, Some(1), "// Arista Begin")])
  {
    var content := "// Arista Begin";
    assert "+" + content == "+// Arista Begin";
    assert |content| < |Confidential| && !IsSubstring(Confidential, content);
    assert content[..2][0] != '+';
    SingleAddedLine(content);
  }

  /**
   * An End marker with no Begin: no dangling-End error, only the missing text.
   * The literal is a parameter fixed by `requires` only to keep the proof
   * small; the lemma is about that one value.
   */
  lemma DanglingEnd(lines: seq<string>)
    requires lines == ["+// Arista End"]
    ensures ValidateDiffSpec(lines)
         == Returned(false, [Error(MissingConfidential, Some(1), "// Arista End")])
  {
    var content := "// Arista End";
    assert "+" + content == "+// Arista End";
    assert |content| < |Confidential| && !IsSubstring(Confidential, content);
    assert content[..2][0] != '+';
    SingleAddedLine(content);
  }

  /** A blank added line has empty content, which lacks the confidentiality text. */
  lemma BlankAddedLine()
    ensures ValidateDiffSpec(["+"]) == Returned(false, [Error(MissingConfidential, Some(1), "")])
  {
    assert "+" + "" == "+";
    SingleAddedLine("");
  }

  /**
   * `++x` passes the added-line test of line 82; its content is `+x`.
   * The literal is a parameter fixed by `requires` only to keep the proof
   * small; the lemma is about that one value.
   */
  lemma DoublePlusLine(lines: seq<string>)
    requires lines == ["++x"]
    ensures ValidateDiffSpec(lines) == Returned(false, [Error(MissingConfidential, Some(1), "+x")])
  {
    var content := "+x";
    assert "+" + content == "++x";
    assert |content| < |Confidential| && !IsSubstring(Confidential, content);
    assert content[..2][1] == 'x';
    SingleAddedLine(content);
  }

  /** A `+++ b/` header for `path`, whose extension starts at the last dot `d`, looks that extension up. */
  lemma HeaderLookup(path: string, d: nat, k: nat)
    requires path != [] && !IsSpace(path[0]) && !IsSpace(path[|path| - 1])
    requires LastDotOfName(path, d) && 0 <= k < d && path[k] != '.' && '/' !in path[k..d]
    ensures var line := "+++ b/" + path;
      IsHeader(line) && Strip(line[6..]) == path
      && GetCommentChars(path) == if Lower(path[d..]) in Table then Table[Lower(path[d..])] else Triple(CStyle)
  {
    var line := "+++ b/" + path;
    assert line[..6] == "+++ b/" && line[6..] == path;
    StripUnchanged(path);
    assert path[..d][k..] == path[k..d];
    assert HasNonDotName(path[..d]);
    SplitextAt(path, d);
  }

  /** After a header, a suffix of added lines is one run, which starts at index 1. */
  lemma {:induction false} OneRunAfterHeader(lines: seq<string>, n: nat)
    requires 2 <= n <= |lines| && IsHeader(lines[0]) && IsAdded(lines[1])
    requires forall k :: 1 <= k < |lines| ==> IsAdded(lines[k])
    ensures Violations(lines, n) == BlockErrors([Entry(Strip(lines[1][1..]), 2)])
  {
    if n == 2 {
      HeaderIsNotAdded(lines[0]);
      assert Violations(lines, 1) == [];
      assert !OpenRun(lines, 1);
    } else {
      OneRunAfterHeader(lines, n - 1);
      OpenRunAfterAdded(lines, n - 2);
    }
  }

  /** Added lines are no headers, so after a first line that does not raise, no line raises. */
  lemma AddedLinesDoNotRaise(lines: seq<string>)
    requires lines != [] && !CrashesAt(lines[0])
    requires forall k :: 1 <= k < |lines| ==> IsAdded(lines[k])
    ensures forall k :: 0 <= k < |lines| ==> !CrashesAt(lines[k])
  {
    forall k | 1 <= k < |lines| ensures !IsHeader(lines[k]) {
      if IsHeader(lines[k]) {
        HeaderIsNotAdded(lines[k]);
      }
    }
  }

  /**
   * A header for a known extension followed only by added lines: one run,
   * reported on at most once, at its first line.
   */
  lemma HeaderThenAddedLines(lines: seq<string>)
    requires 2 <= |lines| && IsHeader(lines[0]) && !CrashesAt(lines[0]) && IsAdded(lines[1])
    requires forall k :: 1 <= k < |lines| ==> IsAdded(lines[k])
    ensures var v := BlockErrors([Entry(Strip(lines[1][1..]), 2)]);
      ValidateDiffSpec(lines) == Returned(v == [], v)
  {
    AddedLinesDoNotRaise(lines);
    ValidateDiffIsReference(lines);
    ReferenceWithoutCrash(lines, 0);
    OneRunAfterHeader(lines, |lines|);
  }

  /** An added line whose content is already trimmed and does not start with `+`. */
  lemma PlainAddedLine(line: string)
    requires |line| >= 2 && line[0] == '+' && line[1] != '+'
    requires !IsSpace(line[1]) && !IsSpace(line[|line| - 1])
    ensures IsAdded(line) && Strip(line[1..]) == line[1..]
  {
    assert line[..1] == "+" && (|line| >= 3 ==> line[..3][1] != '+');
    StripUnchanged(line[1..]);
  }

  /** The header prefix and the path of a concrete `+++ b/` line. */
  lemma HeaderParts(line: string, path: string)
    requires line == "+++ b/" + path
    ensures line[..6] == "+++ b/" && line[6..] == path
  {
  }

  /**
   * The extension of `src/foo.cpp` is `.cpp`, at index 7, in a name with no space at either end.
   * The literal is a parameter fixed by `requires` only to keep the proof
   * small; the lemma is about that one value.
   */
  lemma CppPath(path: string)
    requires path == "src/foo.cpp"
    ensures path != [] && !IsSpace(path[0]) && !IsSpace(path[|path| - 1])
    ensures LastDotOfName(path, 7) && path[4] != '.' && '/' !in path[4..7]
    ensures path[7..] == ".cpp"
  {
    assert path[8..] == "cpp" && path[4..7] == "foo";
  }

  /**
   * `+++ b/src/foo.cpp` is a header that does not raise.
   * The literal is a parameter fixed by `requires` only to keep the proof
   * small; the lemma is about that one value.
   */
  lemma CppHeader(line: string)
    requires line == "+++ b/src/foo.cpp"
    ensures IsHeader(line) && !CrashesAt(line)
  {
    var path := line[6..];
    HeaderParts(line, "src/foo.cpp");
    CppPath(path);
    assert Lower(".cpp") == ".cpp";
    HeaderLookup(path, 7, 4);
    ExtensionLookup(path);
    assert line == "+++ b/" + path;
  }

  /**
   * The extension of `tool.py` is `.py`, at index 4, in a name with no space at either end.
   * The literal is a parameter fixed by `requires` only to keep the proof
   * small; the lemma is about that one value.
   */
  lemma PythonPath(path: string)
    requires path == "tool.py"
    ensures path != [] && !IsSpace(path[0]) && !IsSpace(path[|path| - 1])
    ensures LastDotOfName(path, 4) && path[0] != '.' && '/' !in path[0..4]
    ensures path[4..] == ".py"
  {
    assert path[5..] == "py" && path[0..4] == "tool";
  }

  /**
   * `+++ b/tool.py` is a header that does not raise.
   * The literal is a parameter fixed by `requires` only to keep the proof
   * small; the lemma is about that one value.
   */
  lemma PythonHeader(line: string)
    requires line == "+++ b/tool.py"
    ensures IsHeader(line) && !CrashesAt(line)
  {
    var path := line[6..];
    HeaderParts(line, "tool.py");
    PythonPath(path);
    assert Lower(".py") == ".py";
    HeaderLookup(path, 4, 0);
    ExtensionLookup(path);
    assert line == "+++ b/" + path;
  }

  /**
   * `+// Arista Begin` is an added line whose content is `// Arista Begin`.
   * The literal is a parameter fixed by `requires` only to keep the proof
   * small; the lemma is about that one value.
   */
  lemma CppBegin(begin: string)
    requires begin == "+// Arista Begin"
    ensures IsAdded(begin) && Strip(begin[1..]) == "// Arista Begin"
  {
    PlainAddedLine(begin);
    assert begin[1..] == "// Arista Begin";
  }

  /**
   * A confidentiality line and `+// Arista End` are added lines.
   * The literal is a parameter fixed by `requires` only to keep the proof
   * small; the lemma is about that one value.
   */
  lemma CppBodyAndEnd(body: string, end: string)
    requires body == "+// Arista confidential. foo" && end == "+// Arista End"
    ensures IsAdded(body) && IsAdded(end)
  {
    PlainAddedLine(body);
    PlainAddedLine(end);
  }

  /**
   * A `.cpp` file whose added lines are `// Arista Begin`, a confidentiality
   * line and `// Arista End`: the three lines form one run, and its first line,
   * the Begin marker, lacks the confidentiality text.
   * The literal is a parameter fixed by `requires` only to keep the proof
   * small; the lemma is about that one value.
   */
  lemma BracketedBlockInCpp(header: string, begin: string, body: string, end: string)
    requires header == "+++ b/src/foo.cpp" && begin == "+// Arista Begin"
    requires body == "+// Arista confidential. foo" && end == "+// Arista End"
    ensures ValidateDiffSpec([header, begin, body, end])
         == Returned(false, [Error(MissingConfidential, Some(2), "// Arista Begin")])
  {
    CppHeader(header);
    CppBegin(begin);
    CppBodyAndEnd(body, end);
    assert !IsSubstring(Confidential, "// Arista Begin");
    HeaderThenAddedLines([header, begin, body, end]);
  }

  /**
   * In a `.py` file the markers written with `#` are ordinary added lines too.
   * The literal is a parameter fixed by `requires` only to keep the proof
   * small; the lemma is about that one value.
   */
  lemma HashMarkersInPython(header: string, begin: string, body: string, end: string)
    requires header == "+++ b/tool.py" && begin == "+# Arista Begin"
    requires body == "+x = 1" && end == "+# Arista End"
    ensures ValidateDiffSpec([header, begin, body, end])
         == Returned(false, [Error(MissingConfidential, Some(2), "# Arista Begin")])
  {
    PythonHeader(header);
    PlainAddedLine(begin);
    PlainAddedLine(body);
    PlainAddedLine(end);
    assert begin[1..] == "# Arista Begin";
    assert !IsSubstring(Confidential, "# Arista Begin");
    HeaderThenAddedLines([header, begin, body, end]);
  }

  /**
   * The extension of `index.html` is `.html`, at index 5, in a name with no space at either end.
   * The literal is a parameter fixed by `requires` only to keep the proof
   * small; the lemma is about that one value.
   */
  lemma HtmlPath(path: string)
    requires path == "index.html"
    ensures path != [] && !IsSpace(path[0]) && !IsSpace(path[|path| - 1])
    ensures LastDotOfName(path, 5) && path[0] != '.' && '/' !in path[0..5]
    ensures path[5..] == ".html"
  {
    assert path[6..] == "html" && path[0..5] == "index";
  }

  /**
   * `+++ b/index.html` is a header that raises, with the path `index.html`.
   * The literal is a parameter fixed by `requires` only to keep the proof
   * small; the lemma is about that one value.
   */
  lemma HtmlHeader(line: string)
    requires line == "+++ b/index.html"
    ensures CrashesAt(line) && Strip(line[6..]) == "index.html"
  {
    var path := line[6..];
    HeaderParts(line, "index.html");
    HtmlPath(path);
    assert Lower(".html") == ".html";
    HeaderLookup(path, 5, 0);
    ExtensionLookup(path);
    assert line == "+++ b/" + path;
  }

  /**
   * An `.html` header raises, even when nothing is added.
   * The literal is a parameter fixed by `requires` only to keep the proof
   * small; the lemma is about that one value.
   */
  lemma HtmlHeaderRaises(git: string, header: string)
    requires git == "diff --git a/index.html b/index.html" && header == "+++ b/index.html"
    ensures ValidateDiffSpec([git, header]) == Raised(2, "index.html")
  {
    assert git[0] == 'd' && !IsHeader(git);
    HtmlHeader(header);
    RaisesAtFirstMarkupHeader([git, header], 1);
  }
}
