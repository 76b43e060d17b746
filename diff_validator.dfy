/**
 * `validate_diff` and `validate_new_block`: one pass over the lines of a
 * unified diff that tracks the comment syntax of the current file, whether an
 * `Arista Begin` region is open, and the pending block of consecutive added
 * lines, and collects the violations found.
 *
 * `Step`, `Scan` and `Finish` state the pass as functions; the methods
 * `ValidateNewBlock` and `ValidateDiff` are the imperative code, proved to
 * compute what those functions say.
 */
module DiffValidator {
  import opened Wrappers
  import opened Text
  import opened CommentSyntax
  import opened Markers

  /** An added line of the pending block: its trimmed content and its 1-based line number in the diff. */
  datatype Entry = Entry(content: string, lineNum: nat)

  datatype ErrorKind =
    | MissingEnd           // "Expected 'Arista End' comment, but block ended without it."
    | NestedBegin          // "Nested 'Arista Begin' comment found at ..."
    | EndWithoutBegin      // "'Arista End' comment found without a preceding 'Arista Begin' at ..."
    | NotClosed            // "Reached end of diff but 'Arista Begin' block was not closed ..."
    | MissingConfidential  // "First line of new code block must contain 'Arista confidential.' ..."

  /** A violation: its kind, the line it is reported at (none for `NotClosed`) and the text it quotes. */
  datatype Error = Error(kind: ErrorKind, lineNum: Option<nat>, text: string)

  /** What `validate_diff` does: return a verdict with the errors it collected, or raise `ValueError` at a header. */
  datatype Outcome =
    | Returned(passed: bool, errors: seq<Error>)
    | Raised(lineNum: nat, path: string)

  const Confidential := "Arista confidential."

  /**
   * The errors `validate_new_block` appends for a block: none for an empty
   * block; otherwise one, at the first entry, exactly when the first entry lacks
   * the confidentiality text. Later entries are never looked at.
   */
  function BlockErrors(block: seq<Entry>): (r: seq<Error>)
    ensures block == [] ==> r == []
    ensures block != [] ==> (r == [] <==> IsSubstring(Confidential, block[0].content))
    ensures r != [] ==> r == [Error(MissingConfidential, Some(block[0].lineNum), block[0].content)]
  {
    if block == [] || Contains(block[0].content, Confidential) then []
    else [Error(MissingConfidential, Some(block[0].lineNum), block[0].content)]
  }

  lemma BlockErrorsFirstOnly(block: seq<Entry>, more: seq<Entry>)
    requires block != []
    ensures BlockErrors(block + more) == BlockErrors(block)
  {
    assert (block + more)[0] == block[0];
  }

  /** The variables of the scan loop. */
  datatype ScanState = ScanState(
    syntax: Syntax,          // line_comment_start, block_comment_start, block_comment_end
    markers: Markers,        // ARISTA_BEGIN_COMMENT and ARISTA_END_COMMENT
    inBlock: bool,           // in_arista_block
    pending: seq<Entry>,     // new_line_block
    errors: seq<Error>)      // errors

  const Initial := ScanState(CStyle, Default, false, [], [])

  /** How a diff line is handled, in the order the loop body tests it. */
  datatype LineKind =
    | Header(path: string)
    | NotAdded
    | BeginMarker
    | EndMarker
    | Added(content: string)

  predicate IsHeader(line: string) {
    StartsWith(line, "+++ b/")
  }

  predicate IsAdded(line: string) {
    StartsWith(line, "+") && !StartsWith(line, "+++")
  }

  function Classify(m: Markers, line: string): (k: LineKind)
    ensures k.Header? <==> IsHeader(line)
    ensures k.NotAdded? <==> !IsHeader(line) && !IsAdded(line)
    ensures k.BeginMarker? || k.EndMarker? || k.Added? <==> IsAdded(line)
    ensures k.Added? ==> k.content == Strip(line[1..])
    ensures k.Header? ==> k.path == Strip(line[6..])
  {
    if IsHeader(line) then Header(Strip(line[6..]))
    else if !StartsWith(line, "+") || StartsWith(line, "+++") then NotAdded
    else if Search(m, Begin, line) then BeginMarker
    else if Search(m, End, line) then EndMarker
    else Added(Strip(line[1..]))
  }

  datatype StepResult = Continue(next: ScanState) | Crash(lineNum: nat, path: string)

  /**
   * One iteration of the loop, for the line numbered `lineNum`. A header
   * re-resolves the syntax and the patterns; any other line that is not added
   * flushes the pending block, reporting a missing End first when a region is
   * open; a Begin marker reports a nested Begin when a region is open, opens
   * one and flushes; an End marker reports an End without Begin when none is
   * open, closes it and flushes; any other added line joins the pending block.
   * Only a header can raise, only a header changes the syntax and the
   * patterns, and errors are only ever appended.
   */
  function Step(st: ScanState, line: string, lineNum: nat): (r: StepResult)
    ensures r.Crash? ==> IsHeader(line) && r.lineNum == lineNum
    ensures r.Continue? ==> st.errors <= r.next.errors
    ensures r.Continue? && !IsHeader(line) ==> r.next.syntax == st.syntax && r.next.markers == st.markers
    ensures r.Continue? && IsHeader(line) ==>
      r.next == st.(syntax := r.next.syntax, markers := PerFile(r.next.syntax.lineComment))
  {
    match Classify(st.markers, line)
    case Header(path) =>
      var chars := Unpack(GetCommentChars(path));
      if chars.None? then Crash(lineNum, path)
      else Continue(st.(syntax := chars.value, markers := PerFile(chars.value.lineComment)))
    case NotAdded =>
      if st.pending == [] then Continue(st)
      else
        var errors := if st.inBlock then st.errors + [Error(MissingEnd, Some(lineNum), "")] else st.errors;
        Continue(st.(inBlock := false, pending := [], errors := errors + BlockErrors(st.pending)))
    case BeginMarker =>
      var errors := if st.inBlock then st.errors + [Error(NestedBegin, Some(lineNum), line)] else st.errors;
      Continue(st.(inBlock := true, pending := [], errors := errors + BlockErrors(st.pending)))
    case EndMarker =>
      var errors := if !st.inBlock then st.errors + [Error(EndWithoutBegin, Some(lineNum), line)] else st.errors;
      Continue(st.(inBlock := false, pending := [], errors := errors + BlockErrors(st.pending)))
    case Added(content) =>
      Continue(st.(pending := st.pending + [Entry(content, lineNum)]))
  }

  /** After the loop: report an open region, flush the last block, and pass iff no errors. */
  function Finish(st: ScanState): (r: Outcome)
    ensures r.Returned? && (r.passed <==> r.errors == [])
    ensures st.errors <= r.errors
  {
    var errors := (if st.inBlock then st.errors + [Error(NotClosed, None, "")] else st.errors)
                  + BlockErrors(st.pending);
    Returned(errors == [], errors)
  }

  /** The loop from line index `i` on, starting in state `st`. */
  function Scan(st: ScanState, lines: seq<string>, i: nat): (r: Outcome)
    requires i <= |lines|
    ensures r.Returned? ==> (r.passed <==> r.errors == []) && st.errors <= r.errors
    ensures r.Raised? ==> i < r.lineNum <= |lines| && IsHeader(lines[r.lineNum - 1])
    decreases |lines| - i
  {
    if i == |lines| then Finish(st)
    else
      match Step(st, lines[i], i + 1)
      case Crash(lineNum, path) => Raised(lineNum, path)
      case Continue(next) => Scan(next, lines, i + 1)
  }

  lemma ScanContinues(st: ScanState, lines: seq<string>, i: nat, next: ScanState)
    requires i < |lines| && Step(st, lines[i], i + 1) == Continue(next)
    ensures Scan(st, lines, i) == Scan(next, lines, i + 1)
  {
  }

  /** `validate_diff` on a diff already split into lines. */
  function ValidateDiffSpec(lines: seq<string>): (r: Outcome)
    ensures r.Returned? ==> (r.passed <==> r.errors == [])
    ensures r.Raised? ==> 1 <= r.lineNum <= |lines| && IsHeader(lines[r.lineNum - 1])
  {
    Scan(Initial, lines, 0)
  }

  /** The `errors` list, which `validate_new_block` appends to in place. */
  class ErrorList {
    var items: seq<Error>

    constructor ()
      ensures items == []
    {
      items := [];
    }

    method Append(e: Error)
      modifies this
      ensures items == old(items) + [e]
    {
      items := items + [e];
    }
  }

  /**
   * `validate_new_block`. The comment syntax is passed as in the source and,
   * as there, not used.
   */
  method ValidateNewBlock(blockLines: seq<Entry>, syntax: Syntax, errors: ErrorList)
    modifies errors
    ensures errors.items == old(errors.items) + BlockErrors(blockLines)
  {
    if blockLines == [] {
      return;
    }
    var first := blockLines[0];
    if !Contains(first.content, Confidential) {
      errors.Append(Error(MissingConfidential, Some(first.lineNum), first.content));
    }
  }

  /** Lines 74-79: a `+++ b/` header re-resolves the comment syntax and recompiles the marker patterns. */
  method StartFile(line: string, lineNum: nat, ghost st: ScanState)
    returns (crashed: bool, path: string, syntax: Syntax, markers: Markers)
    requires IsHeader(line)
    ensures Step(st, line, lineNum)
         == if crashed then Crash(lineNum, path) else Continue(st.(syntax := syntax, markers := markers))
    ensures !crashed ==> markers == PerFile(syntax.lineComment)
  {
    var currentFilePath := Strip(line[6..]);
    var chars := Unpack(GetCommentChars(currentFilePath));
    assert Classify(st.markers, line) == Header(currentFilePath);
    if chars.None? {
      return true, currentFilePath, CStyle, Default;
    }
    syntax := chars.value;
    markers := PerFile(syntax.lineComment);
    return false, "", syntax, markers;
  }

  /** Lines 82-89: any other line that is not an added line ends the pending block. */
  method EndBlock(line: string, lineNum: nat, syntax: Syntax, markers: Markers,
                  inAristaBlock0: bool, newLineBlock0: seq<Entry>, errors: ErrorList)
    returns (inAristaBlock: bool, newLineBlock: seq<Entry>)
    requires !IsHeader(line) && !IsAdded(line)
    modifies errors
    ensures Step(ScanState(syntax, markers, inAristaBlock0, newLineBlock0, old(errors.items)), line, lineNum)
         == Continue(ScanState(syntax, markers, inAristaBlock, newLineBlock, errors.items))
  {
    assert Classify(markers, line) == NotAdded;
    inAristaBlock, newLineBlock := inAristaBlock0, newLineBlock0;
    if newLineBlock != [] {
      if inAristaBlock {
        errors.Append(Error(MissingEnd, Some(lineNum), ""));
        inAristaBlock := false;
      }
      ValidateNewBlock(newLineBlock, syntax, errors);
      newLineBlock := [];
    }
  }

  /** Lines 91-115: an added line is a Begin marker, an End marker, or joins the pending block. */
  method AddedLine(line: string, lineNum: nat, syntax: Syntax, markers: Markers,
                   inAristaBlock0: bool, newLineBlock0: seq<Entry>, errors: ErrorList)
    returns (inAristaBlock: bool, newLineBlock: seq<Entry>)
    requires IsAdded(line)
    modifies errors
    ensures Step(ScanState(syntax, markers, inAristaBlock0, newLineBlock0, old(errors.items)), line, lineNum)
         == Continue(ScanState(syntax, markers, inAristaBlock, newLineBlock, errors.items))
  {
    ghost var before := ScanState(syntax, markers, inAristaBlock0, newLineBlock0, errors.items);
    inAristaBlock, newLineBlock := inAristaBlock0, newLineBlock0;
    var actualLine := Strip(line[1..]);
    var isAristaBegin := Search(markers, Begin, line);
    var isAristaEnd := Search(markers, End, line);
    if isAristaBegin {
      assert Classify(markers, line) == BeginMarker;
      ghost var expected := (if inAristaBlock0 then before.errors + [Error(NestedBegin, Some(lineNum), line)]
                             else before.errors) + BlockErrors(newLineBlock0);
      assert Step(before, line, lineNum) == Continue(before.(inBlock := true, pending := [], errors := expected));
      if inAristaBlock {
        errors.Append(Error(NestedBegin, Some(lineNum), line));
      }
      inAristaBlock := true;
      if newLineBlock != [] {
        ValidateNewBlock(newLineBlock, syntax, errors);
        newLineBlock := [];
      }
      assert errors.items == expected;
      return;
    } else if isAristaEnd {
      assert Classify(markers, line) == EndMarker;
      ghost var expected := (if !inAristaBlock0 then before.errors + [Error(EndWithoutBegin, Some(lineNum), line)]
                             else before.errors) + BlockErrors(newLineBlock0);
      assert Step(before, line, lineNum) == Continue(before.(inBlock := false, pending := [], errors := expected));
      if !inAristaBlock {
        errors.Append(Error(EndWithoutBegin, Some(lineNum), line));
      }
      inAristaBlock := false;
      if newLineBlock != [] {
        ValidateNewBlock(newLineBlock, syntax, errors);
        newLineBlock := [];
      }
      assert errors.items == expected;
      return;
    }
    assert Classify(markers, line) == Added(actualLine);
    assert Step(before, line, lineNum) == Continue(before.(pending := newLineBlock0 + [Entry(actualLine, lineNum)]));
    newLineBlock := newLineBlock + [Entry(actualLine, lineNum)];
  }

  /** `validate_diff` */
  method ValidateDiff(lines: seq<string>) returns (r: Outcome)
    ensures r == ValidateDiffSpec(lines)
    ensures r.Returned? ==> (r.passed <==> r.errors == [])
  {
    var inAristaBlock := false;
    var newLineBlock: seq<Entry> := [];
    var errors := new ErrorList();
    var syntax := CStyle;
    var markers := Default;
    for i := 0 to |lines|
      invariant ValidateDiffSpec(lines)
             == Scan(ScanState(syntax, markers, inAristaBlock, newLineBlock, errors.items), lines, i)
    {
      var line := lines[i];
      var lineNum := i + 1;
      ghost var before := ScanState(syntax, markers, inAristaBlock, newLineBlock, errors.items);
      if StartsWith(line, "+++ b/") {
        var crashed, path;
        crashed, path, syntax, markers := StartFile(line, lineNum, before);
        if crashed {
          return Raised(lineNum, path);
        }
      } else if !StartsWith(line, "+") || StartsWith(line, "+++") {
        inAristaBlock, newLineBlock :=
          EndBlock(line, lineNum, syntax, markers, inAristaBlock, newLineBlock, errors);
      } else {
        inAristaBlock, newLineBlock :=
          AddedLine(line, lineNum, syntax, markers, inAristaBlock, newLineBlock, errors);
      }
      ScanContinues(before, lines, i, ScanState(syntax, markers, inAristaBlock, newLineBlock, errors.items));
    }
    if inAristaBlock {
      errors.Append(Error(NotClosed, None, ""));
    }
    if newLineBlock != [] {
      ValidateNewBlock(newLineBlock, syntax, errors);
    }
    if errors.items != [] {
      r := Returned(false, errors.items);
    } else {
      r := Returned(true, errors.items);
    }
  }
}
