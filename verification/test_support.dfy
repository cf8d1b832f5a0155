/** The pure helpers of the query snapshot tests (tests/support/mod.rs):
    line-ending normalisation of fixture text and the language id read off
    a fixture's or a query's path. */
module TestSupport {
  import opened Common
  import opened Text

  // ---------------------------------------------------------------------------
  // `normalize_line_endings`

  /** `replace("\r\n", "\n")`: non-overlapping matches, left to right. */
  function ReplaceCrLf(s: string): (r: string)
    ensures |r| <= |s|
    decreases |s|
  {
    if |s| == 0 then ""
    else if |s| >= 2 && s[0] == '\r' && s[1] == '\n' then "\n" + ReplaceCrLf(s[2..])
    else [s[0]] + ReplaceCrLf(s[1..])
  }

  /** `replace('\r', "\n")`. */
  function ReplaceCr(s: string): (r: string)
    ensures |r| == |s|
    ensures '\r' !in r
  {
    seq(|s|, i requires 0 <= i < |s| => if s[i] == '\r' then '\n' else s[i])
  }

  /** `normalize_line_endings`: the two replacements in turn. */
  function NormalizeLineEndings(s: string): string {
    ReplaceCr(ReplaceCrLf(s))
  }

  /** Line endings read in one pass: "\r\n" and a lone '\r' each become one
      '\n'; every other character is kept. */
  function NormalizedEndings(s: string): string
    decreases |s|
  {
    if |s| == 0 then ""
    else if s[0] == '\r' then
      if |s| >= 2 && s[1] == '\n' then "\n" + NormalizedEndings(s[2..]) else "\n" + NormalizedEndings(s[1..])
    else [s[0]] + NormalizedEndings(s[1..])
  }

  lemma ReplaceCrAppend(a: string, b: string)
    ensures ReplaceCr(a + b) == ReplaceCr(a) + ReplaceCr(b)
  {
  }

  /** The two replacements do what the one-pass reading says. */
  lemma {:induction false} NormalizeMatchesOnePass(s: string)
    ensures NormalizeLineEndings(s) == NormalizedEndings(s)
    decreases |s|
  {
    if |s| == 0 {
    } else if |s| >= 2 && s[0] == '\r' && s[1] == '\n' {
      NormalizeMatchesOnePass(s[2..]);
      ReplaceCrAppend("\n", ReplaceCrLf(s[2..]));
    } else {
      NormalizeMatchesOnePass(s[1..]);
      ReplaceCrAppend([s[0]], ReplaceCrLf(s[1..]));
    }
  }

  /** Normalised text has no '\r' left. */
  lemma NormalizedHasNoCr(s: string)
    ensures '\r' !in NormalizeLineEndings(s)
  {
  }

  /** Text without '\r' is left alone. */
  lemma {:induction false} NormalizeWithoutCr(s: string)
    requires '\r' !in s
    ensures NormalizeLineEndings(s) == s
    decreases |s|
  {
    NormalizeMatchesOnePass(s);
    NoCrOnePass(s);
  }

  lemma {:induction false} NoCrOnePass(s: string)
    requires '\r' !in s
    ensures NormalizedEndings(s) == s
    decreases |s|
  {
    if |s| > 0 {
      assert s[0] in s;
      assert forall c :: c in s[1..] ==> c in s;
      NoCrOnePass(s[1..]);
    }
  }

  /** Normalising twice is normalising once. */
  lemma NormalizeIdempotent(s: string)
    ensures NormalizeLineEndings(NormalizeLineEndings(s)) == NormalizeLineEndings(s)
  {
    NormalizedHasNoCr(s);
    NormalizeWithoutCr(NormalizeLineEndings(s));
  }

  // ---------------------------------------------------------------------------
  // `extract_language_id` and `detect_language_id`

  /** `replace('\\', "/")`. */
  function SlashSeparators(s: string): (r: string)
    ensures |r| == |s| && '\\' !in r
  {
    seq(|s|, i requires 0 <= i < |s| => if s[i] == '\\' then '/' else s[i])
  }

  /** The named components of a '/'-separated path: empty pieces (from a
      leading, trailing or doubled '/') and "." pieces are not components. */
  function Components(path: string): (cs: seq<string>)
    ensures forall i :: 0 <= i < |cs| ==> cs[i] != "" && cs[i] != "." && '/' !in cs[i]
  {
    NamedPieces(Split(path, '/'))
  }

  function NamedPieces(pieces: seq<string>): (cs: seq<string>)
    requires forall i :: 0 <= i < |pieces| ==> '/' !in pieces[i]
    ensures forall i :: 0 <= i < |cs| ==> cs[i] != "" && cs[i] != "." && '/' !in cs[i]
  {
    if |pieces| == 0 then []
    else if pieces[0] == "" || pieces[0] == "." then NamedPieces(pieces[1..])
    else [pieces[0]] + NamedPieces(pieces[1..])
  }

  /** The component right after the first one equal to `root`. */
  function AfterFirst(cs: seq<string>, root: string): (r: Option<string>)
    ensures r.None? <==> |cs| == 0 || root !in cs[..|cs| - 1]
    ensures r.Some? ==> exists i :: 0 <= i < |cs| - 1 && cs[i] == root && r.value == cs[i + 1] && root !in cs[..i]
  {
    if |cs| == 0 then None
    else if cs[0] == root then
      assert cs[..0] == [];
      if |cs| >= 2 then Some(cs[1]) else None
    else
      var r := AfterFirst(cs[1..], root);
      assert |cs| >= 2 ==> cs[..|cs| - 1] == [cs[0]] + cs[1..][..|cs| - 2];
      if r.Some? then
        var i :| 0 <= i < |cs| - 2 && cs[1..][i] == root && r.value == cs[1..][i + 1] && root !in cs[1..][..i];
        assert cs[..i + 1] == [cs[0]] + cs[1..][..i];
        r
      else r
  }

  /** `extract_language_id`. */
  function ExtractLanguageId(path: string, root: string): (r: Option<string>)
    ensures r.Some? ==> '/' !in r.value && r.value != "" && r.value != "."
    ensures var cs := Components(SlashSeparators(path));
      && (r.None? <==> |cs| == 0 || root !in cs[..|cs| - 1])
      && (r.Some? ==> exists i :: 0 <= i < |cs| - 1 && cs[i] == root && root !in cs[..i] && r.value == cs[i + 1])
  {
    AfterFirst(Components(SlashSeparators(path)), root)
  }

  /** `detect_language_id`: the id both paths agree on, or the one id a
      single path gives. Disagreeing ids and no id at all are errors (the
      test helper panics with these messages). */
  function DetectLanguageId(fixturePath: string, queryPath: string): (r: Result<string, string>)
    ensures var f := ExtractLanguageId(fixturePath, "languages");
      var q := ExtractLanguageId(queryPath, "languages");
      && (r.Ok? <==> (f.Some? || q.Some?) && (f.Some? && q.Some? ==> f.value == q.value))
      && (r.Ok? ==> (f.Some? && r.value == f.value) || (q.Some? && r.value == q.value))
      && (r.Ok? && f.Some? ==> r.value == f.value)
      && (f.Some? && q.Some? && f.value != q.value ==>
            r == Err("Mismatched language ids: " + f.value + " vs " + q.value))
      && (f.None? && q.None? ==>
            r == Err("Unable to detect language id from paths: " + fixturePath + ", " + queryPath))
  {
    match (ExtractLanguageId(fixturePath, "languages"), ExtractLanguageId(queryPath, "languages"))
    case (Some(f), Some(q)) =>
      if f == q then Ok(f) else Err("Mismatched language ids: " + f + " vs " + q)
    case (Some(f), None) => Ok(f)
    case (None, Some(q)) => Ok(q)
    case (None, None) => Err("Unable to detect language id from paths: " + fixturePath + ", " + queryPath)
  }

  /** Backslashes and slashes are the same separator: a path and its
      slash-only spelling have the same language id. */
  lemma ExtractIgnoresSeparatorStyle(path: string, root: string)
    ensures ExtractLanguageId(path, root) == ExtractLanguageId(SlashSeparators(path), root)
  {
    assert SlashSeparators(SlashSeparators(path)) == SlashSeparators(path);
  }

  /** The fixture and the query can be given in either order. */
  lemma DetectIsSymmetric(a: string, b: string)
    ensures DetectLanguageId(a, b).Ok? <==> DetectLanguageId(b, a).Ok?
    ensures DetectLanguageId(a, b).Ok? ==> DetectLanguageId(a, b).value == DetectLanguageId(b, a).value
  {
  }

  /** A named first component is the first of the components. */
  lemma ComponentsCons(a: string, rest: string)
    requires Named(a)
    ensures Components(a + "/" + rest) == [a] + Components(rest)
  {
    SplitCons(a, '/', rest);
    var pieces := Split(a + "/" + rest, '/');
    assert pieces[1..] == Split(rest, '/');
  }

  /** A single named component. */
  lemma ComponentsOne(a: string)
    requires Named(a)
    ensures Components(a) == [a]
  {
    SplitNoSeparator(a, '/');
    assert [a][1..] == [];
    assert NamedPieces([]) == [];
    assert NamedPieces([a]) == [a] + NamedPieces([]);
  }

  /** A component name with neither kind of separator. */
  predicate Named(a: string) {
    a != "" && a != "." && '/' !in a && '\\' !in a
  }

  lemma SlashSeparatorsAppend(a: string, b: string)
    ensures SlashSeparators(a + b) == SlashSeparators(a) + SlashSeparators(b)
  {
  }

  lemma SlashSeparatorsNamed(a: string)
    requires '\\' !in a
    ensures SlashSeparators(a) == a
  {
  }

  /** `a<sep>b` with either separator reads as `a/b`. */
  lemma SlashSeparatorsJoin(a: string, sep: string, b: string)
    requires sep == "/" || sep == "\\"
    requires '\\' !in a
    ensures SlashSeparators(a + sep + b) == a + "/" + SlashSeparators(b)
  {
    SlashSeparatorsAppend(a + sep, b);
    SlashSeparatorsAppend(a, sep);
    SlashSeparatorsNamed(a);
  }

  /** In a path `root<sep>c<sep>d`, the language is `c`. */
  lemma ExtractAtRoot(root: string, c: string, d: string, sep: string)
    requires Named(root) && Named(c) && Named(d)
    requires sep == "/" || sep == "\\"
    ensures ExtractLanguageId(root + sep + c + sep + d, root) == Some(c)
  {
    SlashSeparatorsJoin(root, sep, c + sep + d);
    SlashSeparatorsJoin(c, sep, d);
    SlashSeparatorsNamed(d);
    assert root + sep + c + sep + d == root + sep + (c + sep + d);
    assert root + "/" + (c + "/" + d) == root + "/" + (c + "/" + d);
    ComponentsOne(d);
    ComponentsCons(c, d);
    ComponentsCons(root, c + "/" + d);
    assert Components(root + "/" + (c + "/" + d)) == [root, c, d];
  }

  /** In a path `a<sep>root<sep>c<sep>d` with `a` other than `root`, the
      language is `c`. */
  lemma ExtractBelowRoot(a: string, root: string, c: string, d: string, sep: string)
    requires Named(a) && Named(root) && Named(c) && Named(d) && a != root
    requires sep == "/" || sep == "\\"
    ensures ExtractLanguageId(a + sep + root + sep + c + sep + d, root) == Some(c)
  {
    var rest := root + sep + c + sep + d;
    assert a + sep + root + sep + c + sep + d == a + sep + rest;
    SlashSeparatorsJoin(a, sep, rest);
    ExtractAtRoot(root, c, d, sep);
    ComponentsCons(a, SlashSeparators(rest));
  }

  /** The Ruby fixture's path, piece by piece. */
  lemma RubyFixturePath()
    ensures "tests/languages/ruby/runnables.rb" == "tests" + "/" + "languages" + "/" + "ruby" + "/" + "runnables.rb"
  {
  }

  /** The Ruby query's path, piece by piece. */
  lemma RubyQueryPath()
    ensures "languages/ruby/runnables.scm" == "languages" + "/" + "ruby" + "/" + "runnables.scm"
  {
  }

  /** The ERB fixture's path, piece by piece. */
  lemma ErbFixturePath()
    ensures "tests\\languages\\erb\\fixtures.rb" == "tests" + "\\" + "languages" + "\\" + "erb" + "\\" + "fixtures.rb"
  {
  }

  /** The ERB query's path, piece by piece. */
  lemma ErbQueryPath()
    ensures "languages\\erb\\runnables.scm" == "languages" + "\\" + "erb" + "\\" + "runnables.scm"
  {
  }

  /** The directory names of the two examples. */
  lemma ExampleDirectoriesNamed()
    ensures Named("tests") && Named("languages") && Named("ruby") && Named("erb") && "tests" != "languages"
  {
  }

  /** The file names of the two examples. */
  lemma ExampleFilesNamed()
    ensures Named("runnables.rb") && Named("runnables.scm") && Named("fixtures.rb")
  {
  }

  /** The language of a fixture under `tests/languages/ruby` and a query
      under `languages/ruby` is `ruby`. */
  lemma DetectsRubyFromPaths()
    ensures DetectLanguageId("tests/languages/ruby/runnables.rb", "languages/ruby/runnables.scm") == Ok("ruby")
  {
    RubyFixturePath();
    RubyQueryPath();
    ExampleDirectoriesNamed();
    ExampleFilesNamed();
    ExtractBelowRoot("tests", "languages", "ruby", "runnables.rb", "/");
    ExtractAtRoot("languages", "ruby", "runnables.scm", "/");
  }

  /** Windows separators are read as '/': the language of
      `tests\\languages\\erb\\fixtures.rb` is `erb`. */
  lemma DetectsWithWindowsSeparators()
    ensures DetectLanguageId("tests\\languages\\erb\\fixtures.rb", "languages\\erb\\runnables.scm") == Ok("erb")
  {
    ErbFixturePath();
    ErbQueryPath();
    ExampleDirectoriesNamed();
    ExampleFilesNamed();
    ExtractBelowRoot("tests", "languages", "erb", "fixtures.rb", "\\");
    ExtractAtRoot("languages", "erb", "runnables.scm", "\\");
  }
}
