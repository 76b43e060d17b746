/**
 * The few string operations the validator relies on: whitespace,
 * `str.strip`, `str.startswith`, `str.rfind`, `str.lower` and an unanchored
 * literal search.
 */
module Text {

  /**
   * The characters below 128 that `str.isspace` and the `\s` of `re` accept:
   * tab, line feed, vertical tab, form feed, carriage return, the four
   * information separators and space.
   */
  predicate IsSpace(c: char) {
    c == ' ' || ('\t' <= c <= '\r') || ('\U{1c}' <= c <= '\U{1f}')
  }

  /** Every character of `s` from index `lo` up to (not including) `hi` is whitespace. */
  ghost predicate SpaceIn(s: string, lo: int, hi: int)
    requires 0 <= lo <= hi <= |s|
  {
    forall k :: lo <= k < hi ==> IsSpace(s[k])
  }

  predicate StartsWith(s: string, prefix: string) {
    |prefix| <= |s| && s[..|prefix|] == prefix
  }

  /** The first index at or after `i` that does not hold whitespace (`|s|` when there is none). */
  function SkipSpace(s: string, i: nat): (j: nat)
    requires i <= |s|
    ensures i <= j <= |s| && SpaceIn(s, i, j)
    ensures j < |s| ==> !IsSpace(s[j])
    decreases |s| - i
  {
    if i < |s| && IsSpace(s[i]) then SkipSpace(s, i + 1) else i
  }

  /** The least index `b`, not below `lo`, such that `s[b..j]` is all whitespace. */
  function BackSpace(s: string, lo: nat, j: nat): (b: nat)
    requires lo <= j <= |s|
    ensures lo <= b <= j && SpaceIn(s, b, j)
    ensures b > lo ==> !IsSpace(s[b - 1])
    decreases j
  {
    if j > lo && IsSpace(s[j - 1]) then BackSpace(s, lo, j - 1) else j
  }

  /**
   * `r` sits at index `i` of `s`, everything before and after it is
   * whitespace, and `r` neither starts nor ends with whitespace.
   */
  ghost predicate StrippedAt(s: string, r: string, i: int) {
    0 <= i && i + |r| <= |s| && s[i..i + |r|] == r
    && SpaceIn(s, 0, i) && SpaceIn(s, i + |r|, |s|)
    && (r == [] || (!IsSpace(r[0]) && !IsSpace(r[|r| - 1])))
  }

  /** `s.strip()`: the part of `s` between its leading and its trailing whitespace. */
  function Strip(s: string): string {
    var a := SkipSpace(s, 0);
    var b := BackSpace(s, a, |s|);
    s[a..b]
  }

  /** `Strip` removes the whitespace at both ends of `s`, and nothing else. */
  lemma StripTrims(s: string)
    ensures exists i :: StrippedAt(s, Strip(s), i)
  {
    var a := SkipSpace(s, 0);
    assert StrippedAt(s, Strip(s), a);
  }

  /** A string that neither starts nor ends with whitespace is its own strip. */
  lemma StripUnchanged(s: string)
    requires s == [] || (!IsSpace(s[0]) && !IsSpace(s[|s| - 1]))
    ensures Strip(s) == s
  {
    assert SkipSpace(s, 0) == 0;
    assert BackSpace(s, 0, |s|) == |s|;
  }

  /** `pattern` occurs in `s` starting at index `i`. */
  ghost predicate OccursAt(pattern: string, s: string, i: int) {
    0 <= i && i + |pattern| <= |s| && s[i..i + |pattern|] == pattern
  }

  ghost predicate IsSubstring(pattern: string, s: string) {
    exists i :: OccursAt(pattern, s, i)
  }

  /** An unanchored search for a literal, as `re.search` does for a pattern without metacharacters. */
  function Contains(s: string, pattern: string): (r: bool)
    ensures r <==> IsSubstring(pattern, s)
    decreases |s|
  {
    if |s| < |pattern| then false
    else if s[..|pattern|] == pattern then
      assert OccursAt(pattern, s, 0);
      true
    else
      assert forall i :: OccursAt(pattern, s, i) ==> i >= 1 && OccursAt(pattern, s[1..], i - 1);
      assert forall i :: OccursAt(pattern, s[1..], i) ==> OccursAt(pattern, s, i + 1);
      Contains(s[1..], pattern)
  }

  /** `s.rfind(c)`: the last index holding `c`, or -1 when there is none. */
  function LastIndex(s: string, c: char): (r: int)
    ensures -1 <= r < |s|
    ensures r >= 0 ==> s[r] == c
    ensures forall j :: r < j < |s| ==> s[j] != c
  {
    if s == [] then -1
    else if s[|s| - 1] == c then |s| - 1
    else LastIndex(s[..|s| - 1], c)
  }

  /** `c.lower()` for ASCII; every other character is left as it is. */
  function LowerChar(c: char): char {
    if 'A' <= c <= 'Z' then (c as int - 'A' as int + 'a' as int) as char else c
  }

  function Lower(s: string): (r: string)
    ensures |r| == |s|
  {
    if s == [] then [] else [LowerChar(s[0])] + Lower(s[1..])
  }

  /** `Lower` lower-cases each character in place and changes nothing else. */
  lemma {:induction false} LowerEach(s: string)
    ensures forall i :: 0 <= i < |s| ==> Lower(s)[i] == LowerChar(s[i])
  {
    if s != [] {
      LowerEach(s[1..]);
      forall i | 1 <= i < |s| ensures Lower(s)[i] == LowerChar(s[i]) {
        assert Lower(s)[i] == Lower(s[1..])[i - 1];
      }
    }
  }
}
