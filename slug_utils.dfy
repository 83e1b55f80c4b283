/**
 * Slug to storage-folder translation, and segment-wise percent decoding and
 * encoding of paths.
 *
 * `slugToFolder` first replaces four reserved characters by word tokens,
 * because the filename sanitiser would otherwise delete them and two
 * different slugs could end up in the same folder. The sanitiser
 * (`sanitize-filename`) and `encodeURIComponent` / `decodeURIComponent`
 * are parameters.
 */
module SlugUtils {
  import opened Strings

  /** The reserved-character substitutions, in the order they run. */
  function Substitute(slug: string): string
  {
    var star := ReplaceAll(slug, "*", "_star_");
    var doubleColon := ReplaceAll(star, "::", "_doublecolon_");
    var colon := ReplaceAll(doubleColon, ":", "_colon_");
    ReplaceAll(colon, "?", "_question_")
  }

  /** The characters a slug must not carry into a folder name. */
  predicate Reserved(c: char)
  {
    c == '*' || c == ':' || c == '?'
  }

  /** `slugToFolder(slug, joiner)` */
  function SlugToFolder(slug: string, joiner: string, sanitize: string -> string): string
  {
    Join(MapStrings(sanitize, Split(Lower(Substitute(slug)), '/')), joiner)
  }

  /** The default joiner is `/`. */
  function SlugToFolderDefault(slug: string, sanitize: string -> string): string
  {
    SlugToFolder(slug, "/", sanitize)
  }

  /** What a single segment of the slug becomes before it is sanitised. */
  function FolderSegment(segment: string): string
  {
    Lower(Substitute(segment))
  }

  /** No reserved character survives the substitutions. */
  lemma SubstituteRemovesReserved(slug: string)
    ensures forall c :: c in Substitute(slug) ==> !Reserved(c)
  {
    var star := ReplaceAll(slug, "*", "_star_");
    var doubleColon := ReplaceAll(star, "::", "_doublecolon_");
    var colon := ReplaceAll(doubleColon, ":", "_colon_");
    var r := ReplaceAll(colon, "?", "_question_");
    ReplaceAllRemoves(slug, '*', "_star_");
    ReplaceAllKeepsAbsent(star, "::", "_doublecolon_", '*');
    ReplaceAllKeepsAbsent(doubleColon, ":", "_colon_", '*');
    ReplaceAllKeepsAbsent(colon, "?", "_question_", '*');
    ReplaceAllRemoves(doubleColon, ':', "_colon_");
    ReplaceAllKeepsAbsent(colon, "?", "_question_", ':');
    ReplaceAllRemoves(colon, '?', "_question_");
  }

  /** A slug without reserved characters is left as it is. */
  lemma SubstituteNoReserved(s: string)
    requires forall c :: c in s ==> !Reserved(c)
    ensures Substitute(s) == s
  {
    ReplaceAllNoMatch(s, "*", "_star_");
    ReplaceAllNoMatch(s, "::", "_doublecolon_");
    ReplaceAllNoMatch(s, ":", "_colon_");
    ReplaceAllNoMatch(s, "?", "_question_");
  }

  /** A single `:` followed by text without `:` is not a `::`. */
  lemma SingleColonIsNotDouble(b: string)
    requires ':' !in b
    ensures ReplaceAll(":" + b, "::", "_doublecolon_") == ":" + b
  {
    var s := ":" + b;
    if |s| >= 2 {
      assert s[..2][1] == b[0];
      ReplaceAllSkip(s, "::", "_doublecolon_");
      assert s[1..] == b;
      ReplaceAllNoMatch(b, "::", "_doublecolon_");
    }
  }

  lemma ColonSubstituted(a: string, b: string)
    requires forall c :: c in a ==> !Reserved(c)
    requires forall c :: c in b ==> !Reserved(c)
    ensures Substitute(a + ":" + b) == a + "_colon_" + b
  {
    ColonFirstSteps(a, b);
    var c1 := a + "_colon_" + b;
    assert c1 == a + ("_colon_" + b);
    assert '?' !in c1;
    ReplaceAllNoMatch(c1, "?", "_question_");
  }

  /** The `*`, `::` and `:` substitutions on `A:B`. */
  lemma ColonFirstSteps(a: string, b: string)
    requires forall c :: c in a ==> !Reserved(c)
    requires forall c :: c in b ==> !Reserved(c)
    ensures ReplaceAll(ReplaceAll(ReplaceAll(a + ":" + b, "*", "_star_"), "::", "_doublecolon_"), ":", "_colon_") ==
      a + "_colon_" + b
  {
    var s1 := a + ":" + b;
    assert '*' !in s1;
    ReplaceAllNoMatch(s1, "*", "_star_");
    assert s1 == a + (":" + b);
    ReplaceAllPrefixFree(a, ":" + b, "::", "_doublecolon_");
    SingleColonIsNotDouble(b);
    ReplaceAllPrefixFree(a, ":" + b, ":", "_colon_");
    ReplaceAllAtStart(b, ":", "_colon_");
    ReplaceAllNoMatch(b, ":", "_colon_");
  }

  lemma DoubleColonSubstituted(a: string, b: string)
    requires forall c :: c in a ==> !Reserved(c)
    requires forall c :: c in b ==> !Reserved(c)
    ensures Substitute(a + "::" + b) == a + "_doublecolon_" + b
  {
    DoubleColonFirstSteps(a, b);
    var c2 := a + "_doublecolon_" + b;
    assert c2 == a + ("_doublecolon_" + b);
    assert ':' !in c2 && '?' !in c2;
    ReplaceAllNoMatch(c2, ":", "_colon_");
    ReplaceAllNoMatch(c2, "?", "_question_");
  }

  /** The `*` and `::` substitutions on `A::B`. */
  lemma DoubleColonFirstSteps(a: string, b: string)
    requires forall c :: c in a ==> !Reserved(c)
    requires forall c :: c in b ==> !Reserved(c)
    ensures ReplaceAll(ReplaceAll(a + "::" + b, "*", "_star_"), "::", "_doublecolon_") == a + "_doublecolon_" + b
  {
    var s2 := a + "::" + b;
    assert '*' !in s2;
    ReplaceAllNoMatch(s2, "*", "_star_");
    assert s2 == a + ("::" + b);
    ReplaceAllPrefixFree(a, "::" + b, "::", "_doublecolon_");
    ReplaceAllAtStart(b, "::", "_doublecolon_");
    ReplaceAllNoMatch(b, "::", "_doublecolon_");
  }

  lemma StarSubstituted(a: string, b: string)
    requires forall c :: c in a ==> !Reserved(c)
    requires forall c :: c in b ==> !Reserved(c)
    ensures Substitute(a + "*" + b) == a + "_star_" + b
  {
    var s3 := a + "*" + b;
    assert s3 == a + ("*" + b);
    ReplaceAllPrefixFree(a, "*" + b, "*", "_star_");
    ReplaceAllAtStart(b, "*", "_star_");
    ReplaceAllNoMatch(b, "*", "_star_");
    var c3 := a + "_star_" + b;
    assert c3 == a + ("_star_" + b);
    assert ':' !in c3 && '?' !in c3;
    ReplaceAllNoMatch(c3, "::", "_doublecolon_");
    ReplaceAllNoMatch(c3, ":", "_colon_");
    ReplaceAllNoMatch(c3, "?", "_question_");
  }

  /**
   * Around a single separator `A:B`, `A::B` and `A*B` become three different
   * strings, so they can never share a folder because of the sanitiser.
   */
  lemma ReservedSlugsStayDistinct(a: string, b: string)
    requires forall c :: c in a ==> !Reserved(c)
    requires forall c :: c in b ==> !Reserved(c)
    ensures Substitute(a + ":" + b) == a + "_colon_" + b
    ensures Substitute(a + "::" + b) == a + "_doublecolon_" + b
    ensures Substitute(a + "*" + b) == a + "_star_" + b
    ensures Substitute(a + ":" + b) != Substitute(a + "::" + b)
    ensures Substitute(a + ":" + b) != Substitute(a + "*" + b)
    ensures Substitute(a + "::" + b) != Substitute(a + "*" + b)
  {
    ColonSubstituted(a, b);
    DoubleColonSubstituted(a, b);
    StarSubstituted(a, b);
  }

  /** The substitutions never touch a `/`. */
  lemma SubstituteAroundSlash(a: string, b: string)
    ensures Substitute(a + "/" + b) == Substitute(a) + "/" + Substitute(b)
  {
    var a1 := ReplaceAll(a, "*", "_star_");
    var b1 := ReplaceAll(b, "*", "_star_");
    ReplaceAllAround(a, '/', b, "*", "_star_");
    var a2 := ReplaceAll(a1, "::", "_doublecolon_");
    var b2 := ReplaceAll(b1, "::", "_doublecolon_");
    ReplaceAllAround(a1, '/', b1, "::", "_doublecolon_");
    var a3 := ReplaceAll(a2, ":", "_colon_");
    var b3 := ReplaceAll(b2, ":", "_colon_");
    ReplaceAllAround(a2, '/', b2, ":", "_colon_");
    ReplaceAllAround(a3, '/', b3, "?", "_question_");
  }

  /** A segment without `/` still has none once substituted and lower-cased. */
  lemma FolderSegmentNoSlash(s: string)
    requires '/' !in s
    ensures '/' !in FolderSegment(s)
  {
    var a := ReplaceAll(s, "*", "_star_");
    ReplaceAllKeepsAbsent(s, "*", "_star_", '/');
    var b := ReplaceAll(a, "::", "_doublecolon_");
    ReplaceAllKeepsAbsent(a, "::", "_doublecolon_", '/');
    var c := ReplaceAll(b, ":", "_colon_");
    ReplaceAllKeepsAbsent(b, ":", "_colon_", '/');
    ReplaceAllKeepsAbsent(c, "?", "_question_", '/');
    LowerKeepsAbsent(Substitute(s), '/');
  }

  /** Substituting and lower-casing a joined path works segment by segment. */
  lemma {:induction false} FolderSegmentsJoin(parts: seq<string>)
    requires parts != []
    ensures Lower(Substitute(Join(parts, "/"))) == Join(MapStrings(FolderSegment, parts), "/")
    decreases |parts|
  {
    if |parts| > 1 {
      var rest := parts[1..];
      JoinCons(parts[0], rest, "/");
      assert parts == [parts[0]] + rest;
      SubstituteAroundSlash(parts[0], Join(rest, "/"));
      LowerConcat(Substitute(parts[0]) + "/", Substitute(Join(rest, "/")));
      LowerConcat(Substitute(parts[0]), "/");
      FolderSegmentsJoin(rest);
      var mapped := MapStrings(FolderSegment, parts);
      assert mapped == [mapped[0]] + MapStrings(FolderSegment, rest);
      JoinCons(mapped[0], MapStrings(FolderSegment, rest), "/");
    }
  }

  /**
   * With the default joiner, and a sanitiser that never yields a `/`, the
   * folder has exactly one segment per slug segment, and each is the
   * sanitised, substituted, lower-cased slug segment.
   */
  lemma SlugToFolderSegments(slug: string, sanitize: string -> string)
    requires forall s :: '/' !in sanitize(s)
    ensures |Split(SlugToFolderDefault(slug, sanitize), '/')| == |Split(slug, '/')|
    ensures forall i :: 0 <= i < |Split(slug, '/')| ==>
      Split(SlugToFolderDefault(slug, sanitize), '/')[i] == sanitize(FolderSegment(Split(slug, '/')[i]))
  {
    var parts := Split(slug, '/');
    JoinSplit(slug, '/');
    FolderSegmentsJoin(parts);
    var lowered := MapStrings(FolderSegment, parts);
    forall i | 0 <= i < |lowered| ensures '/' !in lowered[i] {
      FolderSegmentNoSlash(parts[i]);
    }
    SplitJoin(lowered, '/');
    var sanitized := MapStrings(sanitize, lowered);
    SplitJoin(sanitized, '/');
  }

  /** `decodePath`: decodeURIComponent on every `/`-separated segment. */
  function DecodePath(path: string, decode: string -> string): string
  {
    Join(MapStrings(decode, Split(path, '/')), "/")
  }

  /** `encodePath`: encodeURIComponent on every `/`-separated segment. */
  function EncodePath(path: string, encode: string -> string): string
  {
    Join(MapStrings(encode, Split(path, '/')), "/")
  }

  /**
   * Decoding an encoded path gives it back, provided the component encoder
   * escapes `/` and the decoder inverts it (as ECMA-262, section 19.2.6,
   * requires of encodeURIComponent and decodeURIComponent on well-formed
   * strings).
   */
  lemma DecodeEncodePath(path: string, encode: string -> string, decode: string -> string)
    requires forall s :: '/' !in encode(s)
    requires forall s :: decode(encode(s)) == s
    ensures DecodePath(EncodePath(path, encode), decode) == path
  {
    var parts := Split(path, '/');
    var encoded := MapStrings(encode, parts);
    SplitJoin(encoded, '/');
    assert MapStrings(decode, encoded) == parts;
    JoinSplit(path, '/');
  }

  /** Both directions leave the number of segments unchanged when the codec keeps `/` out. */
  lemma DecodePathSegments(path: string, decode: string -> string)
    requires forall s :: '/' !in decode(s)
    ensures |Split(DecodePath(path, decode), '/')| == |Split(path, '/')|
  {
    SplitJoin(MapStrings(decode, Split(path, '/')), '/');
  }
}
