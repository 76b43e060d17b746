/**
 * What the scan of `validate_diff` amounts to, stated without its state.
 *
 * Because the marker patterns are searched on the raw `+`-prefixed line, no
 * added line is ever a marker, `in_arista_block` never becomes true, and the
 * pass reduces to: raise at the first `.html`/`.xml` header, or else report one
 * missing-confidentiality error for every run of added lines (runs continue
 * across `+++ b/` headers) whose first line lacks `Arista confidential.`.
 */
module DiffValidatorProperties {
  import opened Wrappers
  import opened Text
  import opened CommentSyntax
  import opened Markers
  import opened DiffValidator

  /**
   * A `+++ b/` line whose extension is `.html` or `.xml` in any letter case:
   * by `UnpackFailsOnlyForMarkup`, exactly the headers whose unpacking at
   * line 76 fails (see `HeaderStep`).
   */
  predicate CrashesAt(line: string) {
    IsHeader(line) && Lower(Splitext(Strip(line[6..])).1) in {".html", ".xml"}
  }

  /**
   * A run of added lines is open at index `i`: some added line precedes `i`
   * with only `+++ b/` headers between it and `i`.
   */
  ghost predicate OpenRun(lines: seq<string>, i: int)
    requires i <= |lines|
  {
    exists j :: 0 <= j < i && IsAdded(lines[j]) && forall k :: j < k < i ==> IsHeader(lines[k])
  }

  /** Line `i` is an added line that starts a new run. */
  ghost predicate RunStart(lines: seq<string>, i: int)
    requires 0 <= i < |lines|
  {
    IsAdded(lines[i]) && !OpenRun(lines, i)
  }

  /** The violations of the runs that start before line index `n`, in order. */
  ghost function Violations(lines: seq<string>, n: nat): seq<Error>
    requires n <= |lines|
  {
    if n == 0 then []
    else Violations(lines, n - 1)
         + (if RunStart(lines, n - 1) then BlockErrors([Entry(Strip(lines[n - 1][1..]), n)]) else [])
  }

  /** The outcome of the pass from line index `i` on: the first crashing header, or the verdict on all runs. */
  ghost function Reference(lines: seq<string>, i: nat): Outcome
    requires i <= |lines|
    decreases |lines| - i
  {
    if i == |lines| then
      var v := Violations(lines, |lines|);
      Returned(v == [], v)
    else if CrashesAt(lines[i]) then Raised(i + 1, Strip(lines[i][6..]))
    else Reference(lines, i + 1)
  }

  /**
   * The states the loop reaches at line index `i`: no region is open, the
   * patterns in force come from a real token, the pending block is non-empty
   * exactly when a run is open, and the errors so far together with what the
   * pending block will report are the violations of the runs seen so far.
   */
  ghost predicate Reachable(lines: seq<string>, i: nat, st: ScanState)
    requires i <= |lines|
  {
    && !st.inBlock
    && ValidMarkers(st.markers)
    && (st.pending != [] <==> OpenRun(lines, i))
    && st.errors + BlockErrors(st.pending) == Violations(lines, i)
  }

  lemma HeaderIsNotAdded(line: string)
    requires IsHeader(line)
    ensures !IsAdded(line)
  {
    assert line[..3] == line[..6][..3];
  }

  /** No line is classified as a marker under patterns compiled from a real token. */
  lemma NoMarkerLines(m: Markers, line: string)
    requires ValidMarkers(m)
    ensures !Classify(m, line).BeginMarker? && !Classify(m, line).EndMarker?
  {
    if StartsWith(line, "+") {
      PlusLineNeverMatches(m, Begin, line);
      PlusLineNeverMatches(m, End, line);
    }
  }

  /** A header crashes the pass exactly when `CrashesAt` says so, and otherwise installs a real token. */
  lemma HeaderStep(st: ScanState, line: string, n: nat)
    requires IsHeader(line)
    ensures Step(st, line, n).Crash? <==> CrashesAt(line)
    ensures Step(st, line, n).Crash? ==> Step(st, line, n) == Crash(n, Strip(line[6..]))
    ensures Step(st, line, n).Continue? ==> ValidMarkers(Step(st, line, n).next.markers)
  {
    UnpackFailsOnlyForMarkup(Strip(line[6..]));
    UnpackedTokens(Strip(line[6..]));
  }

  /** A header neither opens nor closes a run. */
  lemma OpenRunAcrossHeader(lines: seq<string>, i: nat)
    requires i < |lines| && IsHeader(lines[i])
    ensures OpenRun(lines, i + 1) <==> OpenRun(lines, i)
  {
    HeaderIsNotAdded(lines[i]);
    if OpenRun(lines, i + 1) {
      var j :| 0 <= j < i + 1 && IsAdded(lines[j]) && forall k :: j < k < i + 1 ==> IsHeader(lines[k]);
      assert j < i;
    }
    if OpenRun(lines, i) {
      var j :| 0 <= j < i && IsAdded(lines[j]) && forall k :: j < k < i ==> IsHeader(lines[k]);
      assert forall k :: j < k < i + 1 ==> IsHeader(lines[k]);
    }
  }

  /** An added line leaves a run open. */
  lemma OpenRunAfterAdded(lines: seq<string>, i: nat)
    requires i < |lines| && IsAdded(lines[i])
    ensures OpenRun(lines, i + 1)
  {
    assert IsAdded(lines[i]);
  }

  /** Any other line closes the run. */
  lemma NoOpenRunAfterOther(lines: seq<string>, i: nat)
    requires i < |lines| && !IsHeader(lines[i]) && !IsAdded(lines[i])
    ensures !OpenRun(lines, i + 1)
  {
    forall j | 0 <= j < i + 1 && IsAdded(lines[j])
      ensures !forall k :: j < k < i + 1 ==> IsHeader(lines[k])
    {
      assert j < i && !IsHeader(lines[i]);
    }
  }

  lemma HeaderKeepsReachable(lines: seq<string>, i: nat, st: ScanState)
    requires i < |lines| && IsHeader(lines[i]) && Reachable(lines, i, st)
    requires Step(st, lines[i], i + 1).Continue?
    ensures Reachable(lines, i + 1, Step(st, lines[i], i + 1).next)
  {
    HeaderStep(st, lines[i], i + 1);
    HeaderIsNotAdded(lines[i]);
    OpenRunAcrossHeader(lines, i);
    assert !RunStart(lines, i);
  }

  lemma AddedKeepsReachable(lines: seq<string>, i: nat, st: ScanState)
    requires i < |lines| && IsAdded(lines[i]) && Reachable(lines, i, st)
    ensures Reachable(lines, i + 1, Step(st, lines[i], i + 1).next)
  {
    var line := lines[i];
    var e := Entry(Strip(line[1..]), i + 1);
    AddedLineRecorded(st, line, i + 1);
    OpenRunAfterAdded(lines, i);
    if st.pending != [] {
      BlockErrorsFirstOnly(st.pending, [e]);
    }
  }

  lemma OtherKeepsReachable(lines: seq<string>, i: nat, st: ScanState)
    requires i < |lines| && !IsHeader(lines[i]) && !IsAdded(lines[i]) && Reachable(lines, i, st)
    ensures Reachable(lines, i + 1, Step(st, lines[i], i + 1).next)
  {
    OtherLineFlushes(st, lines[i], i + 1);
    NoOpenRunAfterOther(lines, i);
  }

  lemma ReachableStep(lines: seq<string>, i: nat, st: ScanState)
    requires i < |lines| && Reachable(lines, i, st)
    requires Step(st, lines[i], i + 1).Continue?
    ensures Reachable(lines, i + 1, Step(st, lines[i], i + 1).next)
  {
    if IsHeader(lines[i]) {
      HeaderKeepsReachable(lines, i, st);
    } else if IsAdded(lines[i]) {
      AddedKeepsReachable(lines, i, st);
    } else {
      OtherKeepsReachable(lines, i, st);
    }
  }

  /** From any reachable state, the rest of the loop and the final check give the reference outcome. */
  lemma {:induction false} ScanFollowsReference(lines: seq<string>, i: nat, st: ScanState)
    requires i <= |lines| && Reachable(lines, i, st)
    ensures Scan(st, lines, i) == Reference(lines, i)
    decreases |lines| - i
  {
    if i < |lines| {
      var line := lines[i];
      if IsHeader(line) {
        HeaderStep(st, line, i + 1);
      } else {
        NoMarkerLines(st.markers, line);
      }
      match Step(st, line, i + 1)
      case Crash(_, _) =>
      case Continue(next) =>
        ReachableStep(lines, i, st);
        ScanFollowsReference(lines, i + 1, next);
    }
  }

  /** `validate_diff` is the reference: the first markup header raises, otherwise one error per unmarked run. */
  lemma ValidateDiffIsReference(lines: seq<string>)
    ensures ValidateDiffSpec(lines) == Reference(lines, 0)
  {
    assert Violations(lines, 0) == [];
    ScanFollowsReference(lines, 0, Initial);
  }

  /** Every violation is a missing confidentiality text, reported at a run start, in increasing line order. */
  lemma {:induction false} ViolationsAreRunStarts(lines: seq<string>, n: nat)
    requires n <= |lines|
    ensures forall e :: e in Violations(lines, n) ==>
      && e.kind == MissingConfidential
      && e.lineNum.Some? && 1 <= e.lineNum.value <= n
      && RunStart(lines, e.lineNum.value - 1)
      && e.text == Strip(lines[e.lineNum.value - 1][1..])
      && !IsSubstring(Confidential, e.text)
    ensures forall a, b :: 0 <= a < b < |Violations(lines, n)| ==>
      Violations(lines, n)[a].lineNum.value < Violations(lines, n)[b].lineNum.value
  {
    if n > 0 {
      ViolationsAreRunStarts(lines, n - 1);
    }
  }

  /** A pass is clean exactly when every run's first line carries the confidentiality text. */
  lemma {:induction false} NoViolationsIff(lines: seq<string>, n: nat)
    requires n <= |lines|
    ensures Violations(lines, n) == []
        <==> forall i :: 0 <= i < n && RunStart(lines, i) ==> IsSubstring(Confidential, Strip(lines[i][1..]))
  {
    if n > 0 {
      NoViolationsIff(lines, n - 1);
    }
  }

  /** When no header raises, the verdict is the violation list, and it passes iff that list is empty. */
  lemma {:induction false} ReferenceWithoutCrash(lines: seq<string>, i: nat)
    requires i <= |lines|
    requires forall k :: i <= k < |lines| ==> !CrashesAt(lines[k])
    ensures Reference(lines, i) == Returned(Violations(lines, |lines|) == [], Violations(lines, |lines|))
    decreases |lines| - i
  {
    if i < |lines| {
      ReferenceWithoutCrash(lines, i + 1);
    }
  }

  /** The first crashing header decides the outcome, whatever follows it. */
  lemma {:induction false} ReferenceCrash(lines: seq<string>, i: nat, h: nat)
    requires i <= h < |lines| && CrashesAt(lines[h])
    requires forall k :: i <= k < h ==> !CrashesAt(lines[k])
    ensures Reference(lines, i) == Raised(h + 1, Strip(lines[h][6..]))
    decreases h - i
  {
    if i < h {
      assert !CrashesAt(lines[i]);
      ReferenceCrash(lines, i + 1, h);
    }
  }

  /** Whenever the reference returns, its errors are the violations of all runs. */
  lemma {:induction false} ReferenceReturnsViolations(lines: seq<string>, i: nat)
    requires i <= |lines|
    ensures Reference(lines, i).Returned? ==> Reference(lines, i).errors == Violations(lines, |lines|)
    decreases |lines| - i
  {
    if i < |lines| {
      ReferenceReturnsViolations(lines, i + 1);
    }
  }

  /**
   * The marker-related errors (a missing End at a flush, a nested Begin, an
   * End without Begin, an unclosed region at the end) never occur: every
   * error is a missing confidentiality text at the start of a run.
   */
  lemma OnlyConfidentialityErrors(lines: seq<string>)
    ensures ValidateDiffSpec(lines).Returned? ==>
      forall e :: e in ValidateDiffSpec(lines).errors ==>
        e.kind == MissingConfidential && e.lineNum.Some? && 1 <= e.lineNum.value <= |lines|
        && RunStart(lines, e.lineNum.value - 1)
  {
    ValidateDiffIsReference(lines);
    ReferenceReturnsViolations(lines, 0);
    ViolationsAreRunStarts(lines, |lines|);
  }

  /** Lines 74-79: a header changes only the comment syntax and the marker patterns. */
  lemma HeaderChangesOnlySyntax(st: ScanState, line: string, n: nat)
    requires IsHeader(line) && !CrashesAt(line)
    ensures var next := Step(st, line, n);
      && next.Continue?
      && next.next.syntax == Unpack(GetCommentChars(Strip(line[6..]))).value
      && next.next.markers == PerFile(next.next.syntax.lineComment)
      && next.next.inBlock == st.inBlock
      && next.next.pending == st.pending
      && next.next.errors == st.errors
  {
    UnpackFailsOnlyForMarkup(Strip(line[6..]));
  }

  /**
   * Lines 82-89: a line that is not added empties the pending block; the
   * missing-End error at this line and the closing of the region happen only
   * when the block was non-empty.
   */
  lemma OtherLineFlushes(st: ScanState, line: string, n: nat)
    requires !IsHeader(line) && !IsAdded(line)
    ensures var next := Step(st, line, n);
      && next.Continue?
      && next.next.pending == []
      && next.next.syntax == st.syntax && next.next.markers == st.markers
      && next.next.inBlock == (st.inBlock && st.pending == [])
      && next.next.errors
         == st.errors
            + (if st.inBlock && st.pending != [] then [Error(MissingEnd, Some(n), "")] else [])
            + BlockErrors(st.pending)
  {
  }

  /** Lines 91 and 115: an added line that is no marker joins the pending block, and nothing else changes. */
  lemma AddedLineRecorded(st: ScanState, line: string, n: nat)
    requires IsAdded(line) && ValidMarkers(st.markers)
    ensures Step(st, line, n) == Continue(st.(pending := st.pending + [Entry(Strip(line[1..]), n)]))
  {
    NoMarkerLines(st.markers, line);
  }

  /**
   * Lines 97-112, under patterns that did match: a Begin inside a region is
   * reported as nested and keeps it open, an End outside one is reported, every
   * End closes the region, and both flush the pending block.
   */
  lemma MarkerTransitions(st: ScanState, line: string, n: nat)
    ensures Classify(st.markers, line).BeginMarker? ==>
      Step(st, line, n) == Continue(st.(inBlock := true, pending := [],
        errors := st.errors + (if st.inBlock then [Error(NestedBegin, Some(n), line)] else [])
                  + BlockErrors(st.pending)))
    ensures Classify(st.markers, line).EndMarker? ==>
      Step(st, line, n) == Continue(st.(inBlock := false, pending := [],
        errors := st.errors + (if st.inBlock then [] else [Error(EndWithoutBegin, Some(n), line)])
                  + BlockErrors(st.pending)))
  {
  }

  /** With no markup header, the verdict passes exactly when every run's first line carries the confidentiality text. */
  lemma PassIff(lines: seq<string>)
    requires forall k :: 0 <= k < |lines| ==> !CrashesAt(lines[k])
    ensures ValidateDiffSpec(lines).Returned?
    ensures ValidateDiffSpec(lines).passed
        <==> forall i :: 0 <= i < |lines| && RunStart(lines, i) ==> IsSubstring(Confidential, Strip(lines[i][1..]))
  {
    ValidateDiffIsReference(lines);
    ReferenceWithoutCrash(lines, 0);
    NoViolationsIff(lines, |lines|);
  }

  /** A diff without added lines and without a markup header passes with no errors. */
  lemma NoAddedLinesPass(lines: seq<string>)
    requires forall k :: 0 <= k < |lines| ==> !IsAdded(lines[k]) && !CrashesAt(lines[k])
    ensures ValidateDiffSpec(lines) == Returned(true, [])
  {
    ValidateDiffIsReference(lines);
    ReferenceWithoutCrash(lines, 0);
    NoViolationsIff(lines, |lines|);
  }

  /** The first `.html` or `.xml` header raises, whatever comes before or after it. */
  lemma RaisesAtFirstMarkupHeader(lines: seq<string>, h: nat)
    requires h < |lines| && CrashesAt(lines[h])
    requires forall k :: 0 <= k < h ==> !CrashesAt(lines[k])
    ensures ValidateDiffSpec(lines) == Raised(h + 1, Strip(lines[h][6..]))
  {
    ValidateDiffIsReference(lines);
    ReferenceCrash(lines, 0, h);
  }
}
