/** The extension's private gem cache (src/gemset.rs): a `GEM_HOME` directory
    keyed by the Ruby version, and the `gem` commands run against it. */
module Gemset {
  import opened Common
  import opened Text
  import opened Paths
  import opened Executor

  /** An `anyhow::Error`: a root message wrapped by zero or more contexts. */
  datatype Anyhow = Msg(text: string) | Context(context: string, source: Anyhow) {

    /** `to_string()`: the outermost message only. */
    function Display(): string {
      match this
      case Msg(t) => t
      case Context(c, _) => c
    }

    /** Every message, outermost first, as the alternate form `{:#}` shows them. */
    function Chain(): (r: seq<string>)
      ensures |r| >= 1 && r[0] == Display()
    {
      match this
      case Msg(t) => [t]
      case Context(c, s) => [c] + s.Chain()
    }
  }

  /** The value of `DefaultHasher::finish`. */
  type u64 = x: nat | x < 0x1_0000_0000_0000_0000

  // ---------------------------------------------------------------------------
  // versioned_gem_home

  function RubyVersionInvocation(envs: EnvList): Invocation {
    Invocation("ruby", ["--version"], envs)
  }

  /** The directory name for a Ruby version: the hash of the trimmed
      `ruby --version` output, in lower-case hexadecimal. The hash function is
      a parameter. */
  function VersionSegment(stdout: string, hash: string -> u64): string {
    NatToString(hash(Trim(stdout)), 16)
  }

  /** `versioned_gem_home`: runs `ruby --version` once; on exit status 0 the
      gem home is `base/gems/<hash of the trimmed output>`. */
  function VersionedGemHome(baseDir: OsPath, envs: EnvList, exec: Exec, hash: string -> u64)
    : (r: Traced<Result<OsPath, Anyhow>>)
    ensures r.calls == [RubyVersionInvocation(envs)]
    ensures r.value.Ok? <==> ExitedZero(exec(RubyVersionInvocation(envs)))
    ensures r.value.Ok? ==>
      var stdout := exec(RubyVersionInvocation(envs)).value.stdout;
      r.value.value == JoinPath(JoinPath(baseDir, "gems"), VersionSegment(stdout, hash))
    ensures exec(RubyVersionInvocation(envs)).Err? ==>
      && r.value.Err?
      && r.value.error.Display() == "Failed to detect Ruby version"
      && exec(RubyVersionInvocation(envs)).error in r.value.error.Chain()
    ensures exec(RubyVersionInvocation(envs)).Ok? ==>
      var status := exec(RubyVersionInvocation(envs)).value.status;
      && (status.Some? && status.value != 0 ==>
            r.value.Err? && r.value.error.Display() == "Ruby version check failed with status " + IntToString(status.value))
      && (status.None? ==> r.value.Err? && r.value.error.Display() == "Failed to execute ruby --version")
  {
    var inv := RubyVersionInvocation(envs);
    var value :=
      match exec(inv)
      case Err(e) => Err(Context("Failed to detect Ruby version", Msg(e)))
      case Ok(out) =>
        if out.status == Some(0) then Ok(JoinPath(JoinPath(baseDir, "gems"), VersionSegment(out.stdout, hash)))
        else if out.status.Some? then Err(Msg("Ruby version check failed with status " + IntToString(out.status.value)))
        else Err(Msg("Failed to execute ruby --version"));
    Traced(value, [inv])
  }

  /** The gem home is `<base>/gems/<segment>` where the segment is one
      non-empty path component. */
  lemma GemHomeLayout(baseDir: OsPath, envs: EnvList, exec: Exec, hash: string -> u64)
    requires VersionedGemHome(baseDir, envs, exec, hash).value.Ok?
    requires |baseDir.text| > 0 && baseDir.text[|baseDir.text| - 1] != '/'
    ensures var home := VersionedGemHome(baseDir, envs, exec, hash).value.value;
      exists segment: string :: |segment| > 0 && '/' !in segment
        && home.text == baseDir.text + "/gems/" + segment
  {
    var segment := VersionSegment(exec(RubyVersionInvocation(envs)).value.stdout, hash);
    assert IsDigitChar(segment[0]);
    assert forall i :: 0 <= i < |segment| ==> segment[i] != '/';
    var gems := JoinText(baseDir.text, "gems");
    assert gems == baseDir.text + "/" + "gems";
    assert JoinText(gems, segment) == gems + "/" + segment;
    assert baseDir.text + "/" + "gems" + "/" + segment == baseDir.text + "/gems/" + segment;
  }

  /** Two `ruby --version` outputs that differ only in surrounding whitespace
      select the same gem home. */
  lemma GemHomeIgnoresSurroundingWhitespace(
    baseDir: OsPath, envs: EnvList, exec1: Exec, exec2: Exec, hash: string -> u64,
    w1: string, w2: string)
    requires ExitedZero(exec1(RubyVersionInvocation(envs)))
    requires ExitedZero(exec2(RubyVersionInvocation(envs)))
    requires AllWhitespace(w1) && AllWhitespace(w2)
    requires exec2(RubyVersionInvocation(envs)).value.stdout
      == w1 + exec1(RubyVersionInvocation(envs)).value.stdout + w2
    ensures VersionedGemHome(baseDir, envs, exec1, hash) == VersionedGemHome(baseDir, envs, exec2, hash)
  {
    TrimIgnoresSurroundingWhitespace(w1, exec1(RubyVersionInvocation(envs)).value.stdout, w2);
  }

  // ---------------------------------------------------------------------------
  // The Gemset and its commands

  /** A gem home plus the ambient environment passed to every `gem` call. */
  datatype Gemset = Gemset(gemHome: OsPath, envs: EnvList)

  /** `Gemset::new`: absent environment means none. */
  function NewGemset(gemHome: OsPath, envs: Option<EnvList>): (g: Gemset)
    ensures g.gemHome == gemHome
    ensures envs.None? ==> g.envs == []
    ensures envs.Some? ==> g.envs == envs.value
  {
    Gemset(gemHome, envs.GetOr([]))
  }

  /** The invocation behind every gem operation: program `gem`, the
      subcommand, `--norc`, then the operation's arguments; `GEM_HOME` first,
      then the ambient environment in its original order. */
  function GemInvocation(g: Gemset, cmd: string, args: seq<string>): Invocation {
    Invocation("gem", [cmd, "--norc"] + args, [("GEM_HOME", g.gemHome.text)] + g.envs)
  }

  /** `execute_gem_command`. */
  function ExecuteGemCommand(g: Gemset, exec: Exec, cmd: string, args: seq<string>)
    : (r: Traced<Result<string, Anyhow>>)
    ensures !g.gemHome.unicode ==>
      r == Traced(Err(Msg("Failed to convert gem_home path to string")), [])
    ensures g.gemHome.unicode ==> r.calls == [GemInvocation(g, cmd, args)]
    ensures r.value.Ok? <==> g.gemHome.unicode && ExitedZero(exec(GemInvocation(g, cmd, args)))
    ensures r.value.Ok? ==> r.value.value == exec(GemInvocation(g, cmd, args)).value.stdout
    ensures g.gemHome.unicode && exec(GemInvocation(g, cmd, args)).Err? ==>
      r.value == Err(Msg(exec(GemInvocation(g, cmd, args)).error))
    ensures g.gemHome.unicode && exec(GemInvocation(g, cmd, args)).Ok? ==>
      var out := exec(GemInvocation(g, cmd, args)).value;
      && (out.status.Some? && out.status.value != 0 ==>
            && r.value.Err?
            && StartsWith(r.value.error.Display(), "Gem command failed (status: " + IntToString(out.status.value) + ")")
            && EndsWith(r.value.error.Display(), out.stderr))
      && (out.status.None? ==>
            r.value.Err? && r.value.error.Display() == "Failed to execute gem command: " + out.stderr)
  {
    if !g.gemHome.unicode then
      Traced(Err(Msg("Failed to convert gem_home path to string")), [])
    else
      var inv := GemInvocation(g, cmd, args);
      var value :=
        match exec(inv)
        case Err(e) => Err(Msg(e))
        case Ok(out) =>
          if out.status == Some(0) then Ok(out.stdout)
          else if out.status.Some? then
            var prefix := "Gem command failed (status: " + IntToString(out.status.value) + ")";
            var text := prefix + "\nError: " + out.stderr;
            assert text[..|prefix|] == prefix;
            assert text[|text| - |out.stderr|..] == out.stderr;
            Err(Msg(text))
          else Err(Msg("Failed to execute gem command: " + out.stderr));
      Traced(value, [inv])
  }

  /** The fixed arguments of `gem install`. */
  function InstallArgs(name: string): seq<string> {
    ["--no-user-install", "--no-format-executable", "--no-document", name]
  }

  /** `install_gem`. */
  function InstallGem(g: Gemset, exec: Exec, name: string): (r: Traced<Result<(), Anyhow>>)
    ensures g.gemHome.unicode ==> r.calls == [Invocation("gem",
      ["install", "--norc", "--no-user-install", "--no-format-executable", "--no-document", name],
      [("GEM_HOME", g.gemHome.text)] + g.envs)]
    ensures !g.gemHome.unicode ==> r.calls == []
    ensures r.value.Ok? <==> g.gemHome.unicode && ExitedZero(exec(GemInvocation(g, "install", InstallArgs(name))))
    ensures r.value.Err? ==> r.value.error.Display() == "Failed to install gem '" + name + "'"
    ensures g.gemHome.unicode && exec(GemInvocation(g, "install", InstallArgs(name))).Err? ==>
      exec(GemInvocation(g, "install", InstallArgs(name))).error in r.value.error.Chain()
  {
    var run := ExecuteGemCommand(g, exec, "install", InstallArgs(name));
    assert GemInvocation(g, "install", InstallArgs(name)).args
      == ["install", "--norc", "--no-user-install", "--no-format-executable", "--no-document", name];
    match run.value
    case Ok(_) => Traced(Ok(()), run.calls)
    case Err(e) => Traced(Err(Context("Failed to install gem '" + name + "'", e)), run.calls)
  }

  /** `update_gem`. */
  function UpdateGem(g: Gemset, exec: Exec, name: string): (r: Traced<Result<(), Anyhow>>)
    ensures g.gemHome.unicode ==> r.calls == [Invocation("gem",
      ["update", "--norc", name], [("GEM_HOME", g.gemHome.text)] + g.envs)]
    ensures !g.gemHome.unicode ==> r.calls == []
    ensures r.value.Ok? <==> g.gemHome.unicode && ExitedZero(exec(GemInvocation(g, "update", [name])))
    ensures r.value.Err? ==> r.value.error.Display() == "Failed to update gem '" + name + "'"
    ensures g.gemHome.unicode && exec(GemInvocation(g, "update", [name])).Err? ==>
      exec(GemInvocation(g, "update", [name])).error in r.value.error.Chain()
  {
    var run := ExecuteGemCommand(g, exec, "update", [name]);
    assert GemInvocation(g, "update", [name]).args == ["update", "--norc", name];
    match run.value
    case Ok(_) => Traced(Ok(()), run.calls)
    case Err(e) => Traced(Err(Context("Failed to update gem '" + name + "'", e)), run.calls)
  }

  /** `uninstall_gem`: removes one specific version. */
  function UninstallGem(g: Gemset, exec: Exec, name: string, version: string)
    : (r: Traced<Result<(), Anyhow>>)
    ensures g.gemHome.unicode ==> r.calls == [Invocation("gem",
      ["uninstall", "--norc", name, "--version", version], [("GEM_HOME", g.gemHome.text)] + g.envs)]
    ensures !g.gemHome.unicode ==> r.calls == []
    ensures r.value.Ok? <==>
      g.gemHome.unicode && ExitedZero(exec(GemInvocation(g, "uninstall", [name, "--version", version])))
    ensures r.value.Err? ==>
      r.value.error.Display() == "Failed to uninstall gem '" + name + "' version " + version
    ensures g.gemHome.unicode && exec(GemInvocation(g, "uninstall", [name, "--version", version])).Err? ==>
      exec(GemInvocation(g, "uninstall", [name, "--version", version])).error in r.value.error.Chain()
  {
    var run := ExecuteGemCommand(g, exec, "uninstall", [name, "--version", version]);
    assert GemInvocation(g, "uninstall", [name, "--version", version]).args
      == ["uninstall", "--norc", name, "--version", version];
    match run.value
    case Ok(_) => Traced(Ok(()), run.calls)
    case Err(e) =>
      Traced(Err(Context("Failed to uninstall gem '" + name + "' version " + version, e)), run.calls)
  }

  // ---------------------------------------------------------------------------
  // Parsing `gem list` and `gem outdated`

  /** A `gem list` line for gem `name` at `version`, as the pattern
      `^(\S+) \((.+)\)$` reads it: a name without whitespace, a space, and
      the version in parentheses running to the end of the line. */
  predicate IsListLine(line: string, name: string, version: string) {
    && |name| > 0 && NoWhitespace(name)
    && |version| > 0 && '\n' !in version
    && line == name + " (" + version + ")"
  }

  /** One line against `^(\S+) \((.+)\)$`: the two captures, if it matches. */
  function MatchListLine(line: string): (r: Option<(string, string)>)
    ensures r.Some? ==> IsListLine(line, r.value.0, r.value.1)
  {
    var i := FirstWhitespace(line);
    if 0 < i && i + 3 < |line| && line[i] == ' ' && line[i + 1] == '('
      && line[|line| - 1] == ')' && '\n' !in line[i + 2..|line| - 1]
    then
      var name, version := line[..i], line[i + 2..|line| - 1];
      assert line == name + " (" + version + ")";
      Some((name, version))
    else None
  }

  /** The pattern reads every line of that shape, so the captured version is
      exactly the text inside the parentheses. */
  lemma MatchListLineComplete(line: string, name: string, version: string)
    requires IsListLine(line, name, version)
    ensures MatchListLine(line) == Some((name, version))
  {
    var i := |name|;
    assert line[i] == ' ';
    forall k | 0 <= k < i
      ensures !IsWhitespace(line[k])
    {
      assert line[k] == name[k];
    }
    FirstWhitespaceAt(line, i);
    assert line[..i] == name;
    assert line[i + 2..|line| - 1] == version;
  }

  /** The gem a list line names, if it matches the pattern. */
  predicate ListsGem(line: string, name: string) {
    MatchListLine(line).Some? && MatchListLine(line).value.0 == name
  }

  /** The version on the first line that lists `name`; lines that do not
      match the pattern, or list another gem, are skipped. */
  function FindListedVersion(lines: seq<string>, name: string): (r: Option<string>)
    ensures r.None? <==> forall i :: 0 <= i < |lines| ==> !ListsGem(lines[i], name)
    ensures r.Some? ==> exists i ::
      && 0 <= i < |lines|
      && IsListLine(lines[i], name, r.value)
      && forall j :: 0 <= j < i ==> !ListsGem(lines[j], name)
  {
    if |lines| == 0 then None
    else if ListsGem(lines[0], name) then Some(MatchListLine(lines[0]).value.1)
    else
      var rest := FindListedVersion(lines[1..], name);
      assert forall i :: 1 <= i < |lines| ==> lines[i] == lines[1..][i - 1];
      if rest.Some? then
        ghost var k :| 0 <= k < |lines[1..]| && IsListLine(lines[1..][k], name, rest.value)
          && forall j :: 0 <= j < k ==> !ListsGem(lines[1..][j], name);
        assert IsListLine(lines[k + 1], name, rest.value);
        rest
      else rest
  }

  /** `installed_gem_version`: `gem list --exact <name>`, then the version of
      the first line that lists exactly `name`. */
  function InstalledGemVersion(g: Gemset, exec: Exec, name: string)
    : (r: Traced<Result<Option<string>, Anyhow>>)
    ensures g.gemHome.unicode ==> r.calls == [Invocation("gem",
      ["list", "--norc", "--exact", name], [("GEM_HOME", g.gemHome.text)] + g.envs)]
    ensures !g.gemHome.unicode ==> r.calls == []
    ensures r.value.Ok? <==> g.gemHome.unicode && ExitedZero(exec(GemInvocation(g, "list", ["--exact", name])))
    ensures r.value.Ok? ==>
      r.value.value == FindListedVersion(Lines(exec(GemInvocation(g, "list", ["--exact", name])).value.stdout), name)
    ensures r.value.Err? ==>
      var run := ExecuteGemCommand(g, exec, "list", ["--exact", name]).value;
      run.Err? && r.value.error == run.error
  {
    var run := ExecuteGemCommand(g, exec, "list", ["--exact", name]);
    assert GemInvocation(g, "list", ["--exact", name]).args == ["list", "--norc", "--exact", name];
    match run.value
    case Ok(out) => Traced(Ok(FindListedVersion(Lines(out), name)), run.calls)
    case Err(e) => Traced(Err(e), run.calls)
  }

  /** Some line's first whitespace-delimited token is `name`. */
  function AnyLineHeadedBy(lines: seq<string>, name: string): (r: bool)
    ensures r <==> exists i :: 0 <= i < |lines| && FirstToken(lines[i]) == Some(name)
  {
    if |lines| == 0 then false
    else if FirstToken(lines[0]) == Some(name) then true
    else
      assert forall i :: 1 <= i < |lines| ==> lines[i] == lines[1..][i - 1];
      AnyLineHeadedBy(lines[1..], name)
  }

  /** `AnyLineHeadedBy` agrees with the declarative reading of "first token". */
  lemma HeadedBySpec(lines: seq<string>, name: string)
    ensures AnyLineHeadedBy(lines, name) <==> exists i :: 0 <= i < |lines| && IsFirstToken(lines[i], name)
  {
    if AnyLineHeadedBy(lines, name) {
      var i :| 0 <= i < |lines| && FirstToken(lines[i]) == Some(name);
      FirstTokenSpec(lines[i], name);
    }
    if exists i :: 0 <= i < |lines| && IsFirstToken(lines[i], name) {
      var i :| 0 <= i < |lines| && IsFirstToken(lines[i], name);
      FirstTokenSpec(lines[i], name);
    }
  }

  /** `is_outdated_gem`: `gem outdated`, then whether some line starts with
      the token `name`. */
  function IsOutdatedGem(g: Gemset, exec: Exec, name: string): (r: Traced<Result<bool, Anyhow>>)
    ensures g.gemHome.unicode ==> r.calls == [Invocation("gem",
      ["outdated", "--norc"], [("GEM_HOME", g.gemHome.text)] + g.envs)]
    ensures !g.gemHome.unicode ==> r.calls == []
    ensures r.value.Ok? <==> g.gemHome.unicode && ExitedZero(exec(GemInvocation(g, "outdated", [])))
    ensures r.value.Ok? ==>
      var lines := Lines(exec(GemInvocation(g, "outdated", [])).value.stdout);
      r.value.value <==> exists i :: 0 <= i < |lines| && IsFirstToken(lines[i], name)
    ensures r.value.Err? ==>
      var run := ExecuteGemCommand(g, exec, "outdated", []).value;
      run.Err? && r.value.error == run.error
  {
    var run := ExecuteGemCommand(g, exec, "outdated", []);
    assert GemInvocation(g, "outdated", []).args == ["outdated", "--norc"];
    match run.value
    case Ok(out) =>
      var lines := Lines(out);
      assert out == exec(GemInvocation(g, "outdated", [])).value.stdout;
      HeadedBySpec(lines, name);
      assert AnyLineHeadedBy(lines, name) <==> exists i :: 0 <= i < |lines| && IsFirstToken(lines[i], name);
      assert lines == Lines(exec(GemInvocation(g, "outdated", [])).value.stdout);
      Traced(Ok(AnyLineHeadedBy(lines, name)), run.calls)
    case Err(e) => Traced(Err(e), run.calls)
  }

  // ---------------------------------------------------------------------------
  // Paths and environment of the gem home

  /** `gem_bin_path`: `<gem home>/bin/<bin>`, if the path is representable as
      text. */
  function GemBinPath(g: Gemset, bin: string): (r: Result<string, Anyhow>)
    ensures r.Ok? <==> g.gemHome.unicode
    ensures r.Ok? && |g.gemHome.text| > 0 && g.gemHome.text[|g.gemHome.text| - 1] != '/' && |bin| > 0 && bin[0] != '/' ==>
      r.value == g.gemHome.text + "/bin/" + bin
    ensures r.Err? ==> r.error.Display() == "Failed to convert path for '" + bin + "'"
  {
    var p := JoinPath(JoinPath(g.gemHome, "bin"), bin);
    match ToStr(p)
    case Some(s) =>
      BinPathText(g.gemHome.text, bin);
      Ok(s)
    case None => Err(Msg("Failed to convert path for '" + bin + "'"))
  }

  lemma BinPathText(home: string, bin: string)
    ensures |home| > 0 && home[|home| - 1] != '/' && |bin| > 0 && bin[0] != '/' ==>
      JoinText(JoinText(home, "bin"), bin) == home + "/bin/" + bin
  {
    if |home| > 0 && home[|home| - 1] != '/' && |bin| > 0 && bin[0] != '/' {
      assert JoinText(home, "bin") == home + "/" + "bin";
      assert home + "/" + "bin" + "/" + bin == home + "/bin/" + bin;
    }
  }

  /** Collecting pairs into a map: a later pair for a key replaces an earlier
      one. */
  function ToMap(envs: EnvList): (m: map<string, string>)
    ensures m.Keys == set i | 0 <= i < |envs| :: envs[i].0
    decreases |envs|
  {
    if |envs| == 0 then map[]
    else
      var init := envs[..|envs| - 1];
      var m := ToMap(init);
      assert (set i | 0 <= i < |envs| :: envs[i].0) == (set i | 0 <= i < |init| :: init[i].0) + {envs[|envs| - 1].0} by {
        forall i | 0 <= i < |init| ensures init[i] == envs[i] { }
      }
      m[envs[|envs| - 1].0 := envs[|envs| - 1].1]
  }

  /** The value kept for a key is the one from its last pair. */
  lemma {:induction false} ToMapLastWins(envs: EnvList, i: nat)
    requires i < |envs|
    requires forall j :: i < j < |envs| ==> envs[j].0 != envs[i].0
    ensures envs[i].0 in ToMap(envs) && ToMap(envs)[envs[i].0] == envs[i].1
    decreases |envs|
  {
    if i < |envs| - 1 {
      var init := envs[..|envs| - 1];
      assert init[i] == envs[i];
      ToMapLastWins(init, i);
    }
  }

  function Lookup(m: map<string, string>, key: string): Option<string> {
    if key in m then Some(m[key]) else None
  }

  /** The new `GEM_PATH`: the gem home in front of the existing value unless
      it is already one of its ':' entries; the gem home alone if unset. */
  function MergeGemPath(existing: Option<string>, home: string): (r: string)
    ensures existing.Some? ==> EndsWith(r, existing.value)
    ensures existing.Some? && home in Split(existing.value, ':') ==> r == existing.value
    ensures existing.Some? && home !in Split(existing.value, ':') ==> r == home + ":" + existing.value
    ensures ':' !in home ==> home in Split(r, ':')
  {
    match existing
    case None =>
      SoleEntry(home);
      home
    case Some(v) =>
      if home in Split(v, ':') then v
      else
        var r := home + ":" + v;
        assert r[|r| - |v|..] == v;
        FrontEntry(home, v);
        r
  }

  /** A ':'-free value is a list of one entry. */
  lemma SoleEntry(home: string)
    ensures ':' !in home ==> home in Split(home, ':')
  {
    if ':' !in home {
      SplitNoSeparator(home, ':');
    }
  }

  /** A ':'-free entry put in front of a list is one of its entries. */
  lemma FrontEntry(home: string, v: string)
    ensures ':' !in home ==> home in Split(home + ":" + v, ':')
  {
    if ':' !in home {
      SplitCons(home, ':', v);
      assert home + ":" + v == home + [':'] + v;
    }
  }

  /** The new `PATH`: `<gem home>/bin` after the existing value; alone if unset. */
  function MergePath(existing: Option<string>, bin: string): (r: string)
    ensures existing.Some? ==> StartsWith(r, existing.value + ":")
    ensures existing.Some? ==> r == existing.value + ":" + bin
    ensures existing.None? ==> r == bin
    ensures EndsWith(r, bin)
  {
    match existing
    case None => bin
    case Some(v) =>
      var r := v + ":" + bin;
      assert r[..|v + ":"|] == v + ":";
      assert r[|r| - |bin|..] == bin;
      r
  }

  /** Unlike `GEM_PATH`, `PATH` is not checked for the entry: merging
      again appends `<gem home>/bin` once more. */
  lemma PathGrowsOnRemerge(existing: Option<string>, bin: string)
    ensures var once := MergePath(existing, bin);
      var twice := MergePath(Some(once), bin);
      |twice| == |once| + 1 + |bin| && StartsWith(twice, once + ":")
  {
    var once := MergePath(existing, bin);
    assert MergePath(Some(once), bin) == once + ":" + bin;
  }

  /** `env()`: the ambient environment as a map, with the gem home put on
      `GEM_PATH` and its `bin` directory on `PATH`. The source computes it
      once and caches it; as a pure function every call gives the same map. */
  function Env(g: Gemset): (r: map<string, string>)
    ensures r.Keys == ToMap(g.envs).Keys + {"GEM_PATH", "PATH"}
    ensures forall k :: k in ToMap(g.envs) && k != "GEM_PATH" && k != "PATH" ==> r[k] == ToMap(g.envs)[k]
    ensures ':' !in g.gemHome.text ==> g.gemHome.text in Split(r["GEM_PATH"], ':')
    ensures "GEM_PATH" in ToMap(g.envs) ==> EndsWith(r["GEM_PATH"], ToMap(g.envs)["GEM_PATH"])
    ensures "GEM_PATH" in ToMap(g.envs) && g.gemHome.text in Split(ToMap(g.envs)["GEM_PATH"], ':') ==>
      r["GEM_PATH"] == ToMap(g.envs)["GEM_PATH"]
    ensures "GEM_PATH" in ToMap(g.envs) && g.gemHome.text !in Split(ToMap(g.envs)["GEM_PATH"], ':') ==>
      r["GEM_PATH"] == g.gemHome.text + ":" + ToMap(g.envs)["GEM_PATH"]
    ensures "GEM_PATH" !in ToMap(g.envs) ==> r["GEM_PATH"] == g.gemHome.text
    ensures "PATH" in ToMap(g.envs) ==> StartsWith(r["PATH"], ToMap(g.envs)["PATH"] + ":")
    ensures "PATH" in ToMap(g.envs) ==> r["PATH"] == ToMap(g.envs)["PATH"] + ":" + JoinPath(g.gemHome, "bin").text
    ensures "PATH" !in ToMap(g.envs) ==> r["PATH"] == JoinPath(g.gemHome, "bin").text
    ensures EndsWith(r["PATH"], JoinPath(g.gemHome, "bin").text)
  {
    var m := ToMap(g.envs);
    var home := g.gemHome.text;
    var bin := JoinPath(g.gemHome, "bin").text;
    m["GEM_PATH" := MergeGemPath(Lookup(m, "GEM_PATH"), home)]["PATH" := MergePath(Lookup(m, "PATH"), bin)]
  }

  /** Putting the gem home on `GEM_PATH` a second time changes nothing: it is
      never listed twice. */
  lemma MergeGemPathIdempotent(existing: Option<string>, home: string)
    requires ':' !in home
    ensures MergeGemPath(Some(MergeGemPath(existing, home)), home) == MergeGemPath(existing, home)
  {
  }
}
