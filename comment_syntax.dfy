/**
 * Comment-syntax resolution: the extension table of `validate_diff`,
 * `os.path.splitext` on POSIX paths, `get_comment_chars`, and the tuple
 * unpacking of the looked-up value into three comment tokens.
 */
module CommentSyntax {
  import opened Wrappers
  import opened Text

  /** (line comment start, block comment start, block comment end) */
  datatype Syntax = Syntax(lineComment: string, blockStart: string, blockEnd: string)

  /** A value of the table: a proper triple, or a bare string (the `.html` and `.xml` rows). */
  datatype TableValue = Triple(syntax: Syntax) | Bare(s: string)

  const CStyle := Syntax("//", "/*", "*/")
  const HashStyle := Syntax("#", "#", "#")
  const CssStyle := Syntax("/*", "/*", "*/")

  const Table: map<string, TableValue> := map[
    ".py" := Triple(HashStyle),
    ".js" := Triple(CStyle),
    ".ts" := Triple(CStyle),
    ".java" := Triple(CStyle),
    ".c" := Triple(CStyle),
    ".cpp" := Triple(CStyle),
    ".h" := Triple(CStyle),
    ".hpp" := Triple(CStyle),
    ".cs" := Triple(CStyle),
    ".sh" := Triple(HashStyle),
    ".go" := Triple(CStyle),
    ".rs" := Triple(CStyle),
    ".html" := Bare(""),
    ".xml" := Bare(""),
    ".css" := Triple(CssStyle)
  ]

  /** Some character of the last path component of `root` is not a dot. */
  ghost predicate HasNonDotName(root: string) {
    exists k :: 0 <= k < |root| && root[k] != '.' && '/' !in root[k..]
  }

  /** `d` is the last dot of `p`, and it lies in the last path component. */
  predicate LastDotOfName(p: string, d: int) {
    0 <= d < |p| && p[d] == '.' && '.' !in p[d + 1..] && '/' !in p[d + 1..]
  }

  /**
   * `os.path.splitext` with separator `/`: the extension runs from the last dot of
   * the last path component, unless only dots precede that dot in the component.
   */
  function Splitext(p: string): (r: (string, string))
    ensures r.0 + r.1 == p
    ensures r.1 != [] ==> LastDotOfName(p, |r.0|) && HasNonDotName(r.0)
  {
    var sep := LastIndex(p, '/');
    var dot := LastIndex(p, '.');
    if sep < dot && exists k :: sep < k < dot && p[k] != '.' then
      ExtensionCase(p, sep, dot);
      (p[..dot], p[dot..])
    else
      NoExtensionCase(p, sep, dot);
      (p, "")
  }

  /** When `splitext` finds an extension, it starts at a last dot of the name with a non-dot before it. */
  lemma ExtensionCase(p: string, sep: int, dot: int)
    requires sep == LastIndex(p, '/') && dot == LastIndex(p, '.')
    requires sep < dot && exists k :: sep < k < dot && p[k] != '.'
    ensures LastDotOfName(p, dot) && HasNonDotName(p[..dot])
  {
    var k :| sep < k < dot && p[k] != '.';
    forall i | 0 <= i < dot - k ensures p[..dot][k..][i] != '/' {
      assert p[..dot][k..][i] == p[k + i];
    }
    assert p[..dot][k] != '.';
  }

  /** When `splitext` finds no extension, no last dot of the name has a non-dot before it. */
  lemma NoExtensionCase(p: string, sep: int, dot: int)
    requires sep == LastIndex(p, '/') && dot == LastIndex(p, '.')
    requires !(sep < dot && exists k :: sep < k < dot && p[k] != '.')
    ensures forall d :: LastDotOfName(p, d) ==> !HasNonDotName(p[..d])
  {
    forall d | LastDotOfName(p, d) ensures !HasNonDotName(p[..d]) {
      assert dot == d && sep < d;
      forall k | 0 <= k < d && p[..d][k] != '.' ensures '/' in p[..d][k..] {
        assert k <= sep;
        assert p[..d][k..][sep - k] == '/';
      }
    }
  }

  /** `Splitext` finds no extension only when no last dot of the name has a non-dot before it in the name. */
  lemma SplitextNone(p: string)
    requires Splitext(p).1 == []
    ensures forall d :: LastDotOfName(p, d) ==> !HasNonDotName(p[..d])
  {
    NoExtensionCase(p, LastIndex(p, '/'), LastIndex(p, '.'));
  }

  /** A last dot of the name with a non-dot before it in the name is where `Splitext` splits. */
  lemma SplitextAt(p: string, d: int)
    requires LastDotOfName(p, d) && HasNonDotName(p[..d])
    ensures Splitext(p) == (p[..d], p[d..])
  {
    var r := Splitext(p);
    if r.1 == [] {
      SplitextNone(p);
    }
    var e := |r.0|;
    assert p[e..] == r.1;
  }

  /** `get_comment_chars`: the table value for the lower-cased extension, C style when absent. */
  function GetCommentChars(path: string): (r: TableValue)
    ensures Splitext(path).1 == [] ==> r == Triple(CStyle)
    ensures r.Bare? ==> r.s == []
  {
    var ext := Lower(Splitext(path).1);
    if ext in Table then Table[ext] else Triple(CStyle)
  }

  /**
   * Unpacking a table value into three names: a triple unpacks, a bare string
   * unpacks only when it has exactly three characters; otherwise Python raises
   * `ValueError`, modelled as `None`.
   */
  function Unpack(v: TableValue): (r: Option<Syntax>)
    ensures r.Some? <==> v.Triple? || |v.s| == 3
    ensures v.Triple? ==> r == Some(v.syntax)
  {
    match v
    case Triple(syntax) => Some(syntax)
    case Bare(s) => if |s| == 3 then Some(Syntax([s[0]], [s[1]], [s[2]])) else None
  }

  /** The lookup rows: hash style for Python and shell, CSS style, C style for the C family and for anything unknown. */
  lemma ExtensionLookup(path: string)
    ensures var ext := Lower(Splitext(path).1);
      && (ext == ".py" || ext == ".sh" ==> GetCommentChars(path) == Triple(HashStyle))
      && (ext == ".css" ==> GetCommentChars(path) == Triple(CssStyle))
      && (ext in {".js", ".ts", ".java", ".c", ".cpp", ".h", ".hpp", ".cs", ".go", ".rs"}
          ==> GetCommentChars(path) == Triple(CStyle))
      && (ext == ".html" || ext == ".xml" ==> GetCommentChars(path) == Bare(""))
      && (ext !in Table ==> GetCommentChars(path) == Triple(CStyle))
  {
  }

  /** Unpacking fails exactly for the `.html` and `.xml` extensions (in any letter case). */
  lemma UnpackFailsOnlyForMarkup(path: string)
    ensures Unpack(GetCommentChars(path)).None?
        <==> Lower(Splitext(path).1) in {".html", ".xml"}
  {
  }

  // Every line-comment token a header can install is `//`, `#` or slash-star.
  lemma UnpackedTokens(path: string)
    ensures Unpack(GetCommentChars(path)).Some? ==>
      Unpack(GetCommentChars(path)).value.lineComment in {"//", "#", "/*"}
  {
  }
}
