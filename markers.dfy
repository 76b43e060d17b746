/**
 * The `Arista Begin` / `Arista End` marker patterns. Each pattern is of the
 * shape `^\s*L1\s*L2...\s*$` for literal pieces L1, L2, ...; the built-in
 * defaults have the single piece `// Arista Begin` (exactly one space after the
 * slashes), the patterns compiled for a file have the pieces `<token>` and
 * `Arista Begin` (any whitespace between them).
 */
module Markers {
  import opened Text

  /** The patterns in force: the defaults, or those compiled for a file's line-comment token. */
  datatype Markers = Default | PerFile(token: string)

  datatype Keyword = Begin | End

  function KeywordText(k: Keyword): string {
    match k
    case Begin => "Arista Begin"
    case End => "Arista End"
  }

  /** The literal pieces of the pattern for keyword `k`. */
  function Pieces(m: Markers, k: Keyword): seq<string> {
    match m
    case Default => ["// " + KeywordText(k)]
    case PerFile(token) => [token, KeywordText(k)]
  }

  /** Every piece is non-empty and begins with a non-whitespace character. */
  predicate WellFormed(pieces: seq<string>) {
    forall k :: 0 <= k < |pieces| ==> pieces[k] != [] && !IsSpace(pieces[k][0])
  }

  /** `s` is whitespace from index `i` up to index `j`, and `piece` follows at `j`. */
  ghost predicate PieceAt(s: string, i: int, piece: string, j: int) {
    0 <= i <= j && j + |piece| <= |s| && SpaceIn(s, i, j) && s[j..j + |piece|] == piece
  }

  /** The suffix `s[i..]` is in the regular language of `\s*L1\s*L2...\s*$`. */
  ghost predicate InLanguage(s: string, i: nat, pieces: seq<string>)
    requires i <= |s|
    decreases |pieces|
  {
    if pieces == [] then SpaceIn(s, i, |s|)
    else exists j :: PieceAt(s, i, pieces[0], j) && InLanguage(s, j + |pieces[0]|, pieces[1..])
  }

  /** The matcher: skip whitespace, take the next piece literally, and so on; then only whitespace. */
  function MatchFrom(s: string, i: nat, pieces: seq<string>): bool
    requires i <= |s|
    decreases |pieces|
  {
    var j := SkipSpace(s, i);
    if pieces == [] then j == |s|
    else
      var p := pieces[0];
      j + |p| <= |s| && s[j..j + |p|] == p && MatchFrom(s, j + |p|, pieces[1..])
  }

  lemma WellFormedTail(pieces: seq<string>)
    requires WellFormed(pieces) && pieces != []
    ensures WellFormed(pieces[1..])
  {
    forall k | 0 <= k < |pieces[1..]| ensures pieces[1..][k] != [] && !IsSpace(pieces[1..][k][0]) {
      assert pieces[1..][k] == pieces[k + 1];
    }
  }

  lemma {:induction false} MatchImpliesLanguage(s: string, i: nat, pieces: seq<string>)
    requires i <= |s| && WellFormed(pieces)
    requires MatchFrom(s, i, pieces)
    ensures InLanguage(s, i, pieces)
    decreases |pieces|
  {
    if pieces != [] {
      var j := SkipSpace(s, i);
      var p := pieces[0];
      WellFormedTail(pieces);
      MatchImpliesLanguage(s, j + |p|, pieces[1..]);
      assert PieceAt(s, i, p, j);
    }
  }

  /** A piece that starts with a non-space character can only be placed right after the whitespace run. */
  lemma PieceAfterSpace(s: string, i: nat, p: string, j: int)
    requires i <= |s| && p != [] && !IsSpace(p[0])
    requires PieceAt(s, i, p, j)
    ensures j == SkipSpace(s, i)
  {
    var j' := SkipSpace(s, i);
    assert s[j] == p[0];
  }

  lemma {:induction false} LanguageImpliesMatch(s: string, i: nat, pieces: seq<string>)
    requires i <= |s| && WellFormed(pieces)
    requires InLanguage(s, i, pieces)
    ensures MatchFrom(s, i, pieces)
    decreases |pieces|
  {
    var j' := SkipSpace(s, i);
    if pieces == [] {
    } else {
      var p := pieces[0];
      WellFormedTail(pieces);
      var j :| PieceAt(s, i, p, j) && InLanguage(s, j + |p|, pieces[1..]);
      PieceAfterSpace(s, i, p, j);
      LanguageImpliesMatch(s, j + |p|, pieces[1..]);
    }
  }

  /** The matcher decides the pattern's language, when no piece starts with whitespace. */
  lemma MatchFromIsRegex(s: string, i: nat, pieces: seq<string>)
    requires i <= |s| && WellFormed(pieces)
    ensures MatchFrom(s, i, pieces) <==> InLanguage(s, i, pieces)
  {
    if MatchFrom(s, i, pieces) { MatchImpliesLanguage(s, i, pieces); }
    if InLanguage(s, i, pieces) { LanguageImpliesMatch(s, i, pieces); }
  }

  /** `PATTERN.search(line)` for the marker pattern of keyword `k`: the pattern is anchored at both ends. */
  predicate Search(m: Markers, k: Keyword, line: string) {
    MatchFrom(line, 0, Pieces(m, k))
  }

  /** The patterns that can be in force: the defaults, or a token that starts with neither `+` nor whitespace. */
  predicate ValidMarkers(m: Markers) {
    m.PerFile? ==> m.token != [] && m.token[0] != '+' && !IsSpace(m.token[0])
  }

  lemma PiecesWellFormed(m: Markers, k: Keyword)
    requires ValidMarkers(m)
    ensures WellFormed(Pieces(m, k))
  {
  }

  /**
   * The patterns are searched on the raw diff line, which for an added line
   * still begins with `+`; since the pattern demands that only whitespace
   * precede the comment token, no added line ever matches.
   */
  lemma PlusLineNeverMatches(m: Markers, k: Keyword, line: string)
    requires ValidMarkers(m)
    requires StartsWith(line, "+")
    ensures !Search(m, k, line)
    ensures !InLanguage(line, 0, Pieces(m, k))
  {
    assert line[0] == '+' && !IsSpace('+');
    assert SkipSpace(line, 0) == 0;
    var pieces := Pieces(m, k);
    assert pieces[0][0] != '+';
    assert |pieces[0]| <= |line| ==> line[0..|pieces[0]|][0] != pieces[0][0];
    PiecesWellFormed(m, k);
    MatchFromIsRegex(line, 0, pieces);
  }

  /**
   * The marker comment of an added line, searched without its `+`, matches the
   * pattern compiled for its file; searched with the `+`, it does not: the
   * defect is in which string is searched, not in the pattern.
   */
  lemma StrippedMarkerMatches(token: string, k: Keyword)
    requires ValidMarkers(PerFile(token))
    ensures Search(PerFile(token), k, " " + token + " " + KeywordText(k))
    ensures !Search(PerFile(token), k, "+ " + token + " " + KeywordText(k))
  {
    var kw := KeywordText(k);
    var s := " " + token + " " + kw;
    var n := |token|;
    assert s[0] == ' ' && s[1] == token[0];
    assert SkipSpace(s, 1) == 1;
    assert SkipSpace(s, 0) == 1;
    assert s[1..1 + n] == token;
    assert s[1 + n] == ' ' && s[2 + n] == kw[0];
    assert SkipSpace(s, 2 + n) == 2 + n;
    assert SkipSpace(s, 1 + n) == 2 + n;
    assert s[2 + n..2 + n + |kw|] == kw;
    assert |s| == 2 + n + |kw|;
    assert SkipSpace(s, |s|) == |s|;
    assert MatchFrom(s, |s|, []);
    assert MatchFrom(s, 2 + n, [kw]);
    assert [token, kw][1..] == [kw];
    assert MatchFrom(s, 0, [token, kw]);
    var plus := "+ " + token + " " + kw;
    assert plus[..1] == "+";
    PlusLineNeverMatches(PerFile(token), k, plus);
  }

  /**
   * The built-in patterns demand exactly one space between `//` and the
   * keyword; the patterns compiled for a file accept any amount of whitespace.
   */
  lemma DefaultNeedsOneSpace(k: Keyword)
    ensures Search(PerFile("//"), k, "//" + KeywordText(k))
    ensures !Search(Default, k, "//" + KeywordText(k))
  {
    var kw := KeywordText(k);
    var s := "//" + kw;
    assert SkipSpace(s, 0) == 0;
    assert s[0..2] == "//";
    assert SkipSpace(s, 2) == 2;
    assert s[2..2 + |kw|] == kw;
    assert SkipSpace(s, |s|) == |s|;
    assert ["//", kw][1..] == [kw];
    assert s[2] != ' ';
    assert |"// " + kw| > |s|;
  }
}
