# Diff annotation validator, modelled in Dafny

`diff_validator.py` checks the unified diff of a pull request for proprietary
annotations. It walks the diff line by line. A `+++ b/<path>` header chooses
the comment syntax for the file from a table of extensions. Consecutive added
lines are collected into a block. When a block ends, its first line must
contain the text `Arista confidential.`. `// Arista Begin` and
`// Arista End` comments, in the comment syntax of the file, are meant to
bracket regions. The pass returns `True` when it found no error and `False`
otherwise, after printing the errors.

The model covers `validate_diff`, its local `get_comment_chars`, and
`validate_new_block`. It follows the code as written:

- The Begin/End patterns are searched on the raw diff line, which for an
  added line still starts with `+`. Each pattern allows only whitespace
  before the comment token, so no added line is ever a marker. The pass then
  reduces to one check: for every run of added lines, the first line must
  carry the confidentiality text.
- A `+++ b/` header does not end the pending block, so a run of added lines
  continues across headers.
- The built-in patterns (before the first header) need exactly one space
  between `//` and the keyword. The patterns compiled for a file accept any
  whitespace there.
- The `.html` and `.xml` rows hold the empty string, not a triple. Unpacking
  it into three names raises `ValueError`. The model records this as the
  outcome `Raised(lineNum, path)`.
- The missing-End error of lines 83-86 is raised only when the pending block
  is non-empty.

The documented intent differs in places. Markers are supposed to open and
close regions, and to produce nested-Begin, End-without-Begin, missing-End
and unclosed-region errors. Headers are supposed to end the pending block.
The model follows the code. `OnlyConfidentialityErrors` proves that none of
the marker errors can occur. `StrippedMarkerMatches` shows that a marker
searched without its `+` would match.

Modules:

- `Text`: whitespace below 128, `strip`, `startswith`, `rfind`, `lower`, and
  literal search.
- `CommentSyntax`: the extension table, `os.path.splitext`,
  `get_comment_chars`, and the three-way unpacking.
- `Markers`: the Begin/End patterns as sequences of literal pieces, a matcher,
  and its equivalence with the regular language of the pattern.
- `DiffValidator`: the loop as the functions `Step`, `Scan` and `Finish`,
  and the imperative `ValidateDiff` and `ValidateNewBlock` proved to compute
  them.
- `DiffValidatorProperties`: a stateless reference for the whole pass, and
  the theorem that the loop computes it.
- `Scenarios`: worked diffs.

## Model

| member | source | states |
|---|---|---|
| Text.StripTrims | diff_validator.py:75 | `str.strip()` leaves exactly the part of the string between its leading and trailing whitespace: what surrounds it is whitespace, and it neither starts nor ends with whitespace |
| Text.Strip | diff_validator.py:75 | `.strip()` of the header path and of an added line's content; `StripTrims` states what it leaves and `StripUnchanged` what it leaves alone |
| Text.StripUnchanged | diff_validator.py:91 | a string with no whitespace at either end is left unchanged by `strip()` |
| Text.Contains | diff_validator.py:147 | `re.search(r'Arista confidential\.', s)` succeeds iff the literal text occurs somewhere in `s` |
| Text.IsSpace | diff_validator.py:75 | the whitespace class of `str.strip()` and of `\s` in the marker patterns, for characters below 128; the whitespace-above-127 line under "## Left out" says what it does not cover |
| Text.LastIndex | diff_validator.py:65 | the `rfind` inside `splitext`: -1 when the character is absent, otherwise an index holding it with no later occurrence |
| Text.Lower | diff_validator.py:66 | `ext.lower()` keeps the length of the extension; `LowerEach` states the rest |
| Text.LowerEach | diff_validator.py:66 | each character of the lower-cased string is the lower-case form of the character at the same index |
| CommentSyntax.Splitext | diff_validator.py:65 | `splitext` cuts the path into root and extension that concatenate back to the path; a non-empty extension starts at the last dot of the last path component, and that component has a non-dot character before the dot |
| CommentSyntax.SplitextNone | diff_validator.py:65 | the extension is empty only when no last dot of the name has a non-dot before it in the name, e.g. for `.bashrc` |
| CommentSyntax.SplitextAt | diff_validator.py:65 | a last dot of the name with a non-dot before it in the name is exactly where `splitext` cuts |
| CommentSyntax.GetCommentChars | diff_validator.py:64-66 | a path with no extension gets C style, and the only bare value it can return is the empty string; `ExtensionLookup` states every table row and `UnpackFailsOnlyForMarkup` which values fail to unpack |
| CommentSyntax.ExtensionLookup | diff_validator.py:45-66 | hash style for `.py` and `.sh`; CSS style for `.css`; C style for the C family and for any extension not in the table; the bare empty string for `.html` and `.xml`; all after lower-casing the extension |
| CommentSyntax.Unpack | diff_validator.py:76 | the tuple unpacking succeeds iff the value is a triple or a three-character string, and yields the triple itself |
| CommentSyntax.UnpackFailsOnlyForMarkup | diff_validator.py:58-59 | unpacking the looked-up value fails exactly for the `.html` and `.xml` extensions, in any letter case |
| CommentSyntax.UnpackedTokens | diff_validator.py:76-78 | every line-comment token a header can install is `//`, `#` or slash-star |
| Markers.MatchFrom | diff_validator.py:77-78 | the matcher for an anchored pattern `^\s*L1\s*L2\s*$`; `MatchFromIsRegex` proves it accepts exactly the pattern's language |
| Markers.Pieces | diff_validator.py:39-40 | the literal content of the marker patterns: the built-in patterns of lines 39-40 are the single piece `// Arista Begin` (or `// Arista End`), with exactly one space; the patterns of lines 77-78 are the escaped token and the keyword, with any whitespace between; `MatchFromIsRegex` ties them to the regex language and `DefaultNeedsOneSpace` shows the difference |
| Markers.Search | diff_validator.py:94-95 | `ARISTA_BEGIN_COMMENT.search(line)` and `ARISTA_END_COMMENT.search(line)`; `MatchFromIsRegex` ties it to the regex language and `PlusLineNeverMatches` shows it fails on every added line |
| Markers.MatchFromIsRegex | diff_validator.py:77-78 | the matcher accepts a string iff it is in the language of `^\s*L1\s*L2\s*$`, whenever no literal piece starts with whitespace |
| Markers.MatchImpliesLanguage | diff_validator.py:77-78 | every string the matcher accepts is in the pattern's language |
| Markers.LanguageImpliesMatch | diff_validator.py:77-78 | every string in the pattern's language is accepted by the matcher |
| Markers.PlusLineNeverMatches | diff_validator.py:94-95 | searching a marker pattern on a line that starts with `+` always fails, under the defaults and under every token a header can install |
| Markers.StrippedMarkerMatches | diff_validator.py:91-95 | the same marker comment matches the file's pattern without the `+` and fails with it |
| Markers.DefaultNeedsOneSpace | diff_validator.py:39-40 | the built-in patterns reject `//Arista Begin` and `//Arista End`, which the patterns compiled for a C-style file accept |
| DiffValidator.BlockErrors | diff_validator.py:137-148 | an empty block yields no error; otherwise exactly one error at the first entry's line, quoting its content, iff the first entry lacks `Arista confidential.` |
| DiffValidator.BlockErrorsFirstOnly | diff_validator.py:140-148 | lines after the first of a block never change its verdict |
| DiffValidator.IsHeader | diff_validator.py:74 | `line.startswith('+++ b/')`; `HeaderIsNotAdded` shows that no header passes the added-line test |
| DiffValidator.IsAdded | diff_validator.py:82 | an added line is one that line 82 does not skip: it starts with `+` but not with `+++` |
| DiffValidator.Classify | diff_validator.py:74-115 | a line is a header iff it starts with `+++ b/`; a line that is not a header is skipped iff it does not start with `+` or starts with `+++`; it is a Begin marker, an End marker or a block line iff it is an added line; headers and block lines carry their stripped remainders |
| DiffValidator.Step | diff_validator.py:73-115 | one iteration: a header re-resolves the syntax and the patterns, or raises; any other line that is not added flushes the pending block, after a missing-End error when a region is open; a Begin marker reports a nested Begin inside a region, opens one and flushes; an End marker reports an End outside a region, closes it and flushes; any other added line joins the pending block. The contract: only a header raises, at its own line; errors are only appended; only a header changes the syntax and the patterns, and a header changes nothing else. `ReachableStep` proves the loop invariant it keeps |
| DiffValidator.Finish | diff_validator.py:117-131 | after the loop the pass always returns, and it passes iff the error list is empty |
| DiffValidator.Scan | diff_validator.py:70-121 | the loop from a given line on: a returned verdict passes iff its error list is empty and extends the errors already collected; a raise happens at a header line at or after the starting line; `ScanFollowsReference` gives its outcome from any reachable state |
| DiffValidator.ValidateDiffSpec | diff_validator.py:28-121 | the whole pass from the initial state: a returned verdict passes iff there are no errors, and a raise happens at a header line of the diff; `ValidateDiffIsReference` equates it with the stateless reference |
| DiffValidator.ErrorList.constructor | diff_validator.py:36 | the error list starts empty |
| DiffValidator.ErrorList.Append | diff_validator.py:85 | `errors.append` adds exactly one error at the end |
| DiffValidator.ValidateNewBlock | diff_validator.py:133-161 | the error list afterwards is the old one followed by the block's errors (`BlockErrors`) |
| DiffValidator.StartFile | diff_validator.py:74-79 | a header either raises with the stripped path or installs the unpacked syntax and the patterns compiled from its line-comment token, exactly as `Step` says |
| DiffValidator.EndBlock | diff_validator.py:82-89 | a line that is not an added line produces the state `Step` gives, with the errors appended in place |
| DiffValidator.AddedLine | diff_validator.py:91-115 | an added line is handled as a Begin marker, an End marker or a block line, producing the state `Step` gives |
| DiffValidator.ValidateDiff | diff_validator.py:28-131 | the loop and final checks compute `ValidateDiffSpec`; a returned verdict passes iff there are no errors |
| DiffValidatorProperties.HeaderIsNotAdded | diff_validator.py:82 | a `+++ b/` header is never treated as an added line |
| DiffValidatorProperties.NoMarkerLines | diff_validator.py:94-97 | under any patterns that can be in force, no line is classified as a Begin or End marker |
| DiffValidatorProperties.HeaderStep | diff_validator.py:74-79 | a header raises iff its path has a `.html` or `.xml` extension, reporting its line and path; otherwise the installed patterns come from a real token |
| DiffValidatorProperties.OpenRunAcrossHeader | diff_validator.py:74-79 | a header neither opens nor closes a run of added lines |
| DiffValidatorProperties.OpenRunAfterAdded | diff_validator.py:115 | after an added line a run is open |
| DiffValidatorProperties.NoOpenRunAfterOther | diff_validator.py:82-89 | after a line that is neither a header nor added, no run is open |
| DiffValidatorProperties.HeaderKeepsReachable | diff_validator.py:74-79 | a header that does not raise keeps the loop invariant: no region open, pending block non-empty iff a run is open, errors plus pending verdict equal the violations so far |
| DiffValidatorProperties.AddedKeepsReachable | diff_validator.py:91-115 | an added line keeps the same loop invariant |
| DiffValidatorProperties.OtherKeepsReachable | diff_validator.py:82-89 | any other line keeps the same loop invariant |
| DiffValidatorProperties.ReachableStep | diff_validator.py:70-115 | every iteration that does not raise keeps the loop invariant |
| DiffValidatorProperties.ScanFollowsReference | diff_validator.py:70-131 | from any state satisfying the invariant, the rest of the pass gives the reference outcome |
| DiffValidatorProperties.ValidateDiffIsReference | diff_validator.py:28-131 | the pass raises at the first `.html`/`.xml` header, and otherwise returns one missing-confidentiality error per run of added lines whose first line lacks the text |
| DiffValidatorProperties.ViolationsAreRunStarts | diff_validator.py:133-148 | every violation is a missing confidentiality text reported at the first line of a run, quoting that line's stripped content; violations are in increasing line order |
| DiffValidatorProperties.NoViolationsIff | diff_validator.py:123-131 | there are no violations iff the first line of every run carries the confidentiality text |
| DiffValidatorProperties.ReferenceWithoutCrash | diff_validator.py:70-131 | when no header raises, the outcome is the verdict on all runs |
| DiffValidatorProperties.ReferenceCrash | diff_validator.py:74-76 | the first header that raises decides the outcome, whatever lines follow it |
| DiffValidatorProperties.ReferenceReturnsViolations | diff_validator.py:117-131 | whenever the pass returns, its errors are the violations of all runs |
| DiffValidatorProperties.OnlyConfidentialityErrors | diff_validator.py:84-119 | the nested-Begin, End-without-Begin, missing-End and unclosed-region errors never occur; every reported error is a missing confidentiality text at the start of a run |
| DiffValidatorProperties.HeaderChangesOnlySyntax | diff_validator.py:74-79 | a header that does not raise changes only the comment syntax and the marker patterns; the region flag, pending block and errors are untouched |
| DiffValidatorProperties.OtherLineFlushes | diff_validator.py:82-89 | a line that is not added empties the pending block and appends its errors; the missing-End error and the closing of the region happen only when the block was non-empty |
| DiffValidatorProperties.AddedLineRecorded | diff_validator.py:91-115 | an added line joins the pending block with its stripped content and line number, and nothing else changes |
| DiffValidatorProperties.MarkerTransitions | diff_validator.py:97-112 | if a line were a marker: Begin inside a region is reported as nested and keeps the region open; End outside a region is reported; every End closes the region; both flush the pending block |
| DiffValidatorProperties.PassIff | diff_validator.py:123-131 | with no `.html`/`.xml` header the pass returns, and it passes iff every run's first line carries the confidentiality text |
| DiffValidatorProperties.NoAddedLinesPass | diff_validator.py:120-131 | a diff with no added lines and no `.html`/`.xml` header passes with no errors |
| DiffValidatorProperties.RaisesAtFirstMarkupHeader | diff_validator.py:74-76 | the first `.html`/`.xml` header raises with its line number and path, whatever comes before or after it |
| Scenarios.SingleAddedLine | diff_validator.py:82-131 | a diff of one added line whose content is trimmed, including the blank line `+` and lines such as `++x`, fails, with one error at line 1 quoting the content, iff the content lacks the confidentiality text |
| Scenarios.BlankAddedLine | diff_validator.py:82-131 | the blank added line `+` alone fails with one error at line 1 quoting the empty content |
| Scenarios.DoublePlusLine | diff_validator.py:82-131 | `++x` is an added line with content `+x`, and alone fails with one error at line 1 |
| Scenarios.UnmarkedLine | diff_validator.py:115-121 | `+int x = 1;` alone fails with one missing-confidentiality error at line 1 |
| Scenarios.UnclosedBegin | diff_validator.py:94-121 | `+// Arista Begin` alone gives no unclosed-region error, only the missing text at line 1 |
| Scenarios.DanglingEnd | diff_validator.py:94-121 | `+// Arista End` alone gives no End-without-Begin error, only the missing text at line 1 |
| Scenarios.HeaderLookup | diff_validator.py:64-76 | a `+++ b/` header for a trimmed path looks up the lower-cased extension that starts at the last dot of the name, or C style when it is absent |
| Scenarios.OneRunAfterHeader | diff_validator.py:74-115 | after a header, a sequence of added lines forms one run starting at line 2 |
| Scenarios.AddedLinesDoNotRaise | diff_validator.py:74-82 | added lines are never headers, so after a first line that does not raise, no line of the diff raises |
| Scenarios.HeaderThenAddedLines | diff_validator.py:74-131 | a header that does not raise, followed only by added lines, yields at most one error, at line 2 |
| Scenarios.PlainAddedLine | diff_validator.py:82-91 | a trimmed `+` line that is not a `++` line is an added line whose content is the line without its `+` |
| Scenarios.CppPath | diff_validator.py:64-65 | the extension of `src/foo.cpp` starts at index 7 and is `.cpp` |
| Scenarios.CppHeader | diff_validator.py:74-78 | `+++ b/src/foo.cpp` is a header that does not raise |
| Scenarios.PythonPath | diff_validator.py:64-65 | the extension of `tool.py` starts at index 4 and is `.py` |
| Scenarios.PythonHeader | diff_validator.py:74-78 | `+++ b/tool.py` is a header that does not raise |
| Scenarios.CppBegin | diff_validator.py:91 | `+// Arista Begin` is an added line whose content is `// Arista Begin` |
| Scenarios.CppBodyAndEnd | diff_validator.py:82 | a confidentiality line and `+// Arista End` are added lines |
| Scenarios.BracketedBlockInCpp | diff_validator.py:28-131 | a `.cpp` file whose added lines are Begin, a confidentiality line and End fails with one error at line 2, on the Begin comment |
| Scenarios.HashMarkersInPython | diff_validator.py:28-131 | in a `.py` file the `#` markers are ordinary lines too: one error at line 2 |
| Scenarios.HtmlPath | diff_validator.py:64-65 | the extension of `index.html` starts at index 5 and is `.html` |
| Scenarios.HtmlHeader | diff_validator.py:58 | `+++ b/index.html` is a header that raises, with the path `index.html` |
| Scenarios.HtmlHeaderRaises | diff_validator.py:74-76 | a diff whose second line is `+++ b/index.html` raises at line 2, even with nothing added |

## Left out

- `get_pull_request_diff` and the `__main__` block are not modelled. They read the environment, run `curl`, print and exit.
- The printing of errors and of the pass/fail banners (lines 123-130) is not modelled. An error keeps its kind, its line number and the text it quotes, not its formatted message.
- `splitlines` is not modelled. The model takes the diff already split into lines.
- `ValueError` at lines 58-59 and 76 is modelled as the outcome `Raised`. The exception and its message are not.
- The regular-expression engine is not modelled. Each marker pattern is modelled by its literal pieces with `\s*` between them, which is what `re.escape` of the three possible tokens produces. `Markers.MatchFromIsRegex` ties the matcher to that language.
- Whitespace is the set of characters below 128 that `str.strip`, `str.isspace` and `\s` accept: space, tab, line feed, vertical tab, form feed, carriage return and the separators `\x1c`-`\x1f`. Python also accepts whitespace above 127 (`\x85`, `\xa0`, U+2000-U+200A and others); the model does not. This can change the outcome: `+++ b/index.html\xa0` raises in Python, since `strip` removes the no-break space, but the model keeps it in the extension and continues with C style.
- `splitlines` also splits at `\v` (`\x0b`), `\f` (`\x0c`), `\x1c`-`\x1e`, `\x85`, U+2028 and U+2029, so no line of a real diff contains them. The model accepts any line.
- `Text.Lower` lower-cases ASCII letters only. Python also lower-cases other letters. The only character above 127 whose lower-case form is ASCII is the Kelvin sign, which becomes `k`. No extension in the table contains `k`, so the lookup agrees.
- Lines 141, 144 and 155-161 compute values that are never used. They have no effect on the errors, so the model drops them. The comment syntax is passed to `DiffValidator.ValidateNewBlock` and, as in the code, not used.
- `current_file_path` is kept only for the `Raised` outcome, since nothing else reads it.
