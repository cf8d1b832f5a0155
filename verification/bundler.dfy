/** The `bundle` wrapper (src/bundler.rs): every command runs against the
    `Gemfile` of one working directory. */
module Bundler {
  import opened Common
  import opened Text
  import opened Paths
  import opened Executor

  /** A working directory given as a (always representable) string. */
  datatype Bundler = Bundler(workingDir: string) {

    /** `<working dir>/Gemfile`. */
    function GemfilePath(): (p: OsPath)
      ensures p.unicode
      ensures EndsWith(p.text, "Gemfile")
    {
      JoinPath(FromString(workingDir), "Gemfile")
    }
  }

  /** The invocation behind a bundle command: the subcommand then its
      arguments; the caller's environment first, `BUNDLE_GEMFILE` last. */
  function BundleInvocation(b: Bundler, cmd: string, args: seq<string>, envs: EnvList): Invocation {
    Invocation("bundle", [cmd] + args, envs + [("BUNDLE_GEMFILE", b.GemfilePath().text)])
  }

  /** `execute_bundle_command`: the executor's own failure message passes
      through unchanged. */
  function ExecuteBundleCommand(b: Bundler, exec: Exec, cmd: string, args: seq<string>, envs: EnvList)
    : (r: Traced<Result<string, string>>)
    ensures r.calls == [BundleInvocation(b, cmd, args, envs)]
    ensures r.value.Ok? <==> ExitedZero(exec(BundleInvocation(b, cmd, args, envs)))
    ensures r.value.Ok? ==> r.value.value == exec(BundleInvocation(b, cmd, args, envs)).value.stdout
    ensures exec(BundleInvocation(b, cmd, args, envs)).Err? ==>
      r.value == Err(exec(BundleInvocation(b, cmd, args, envs)).error)
    ensures exec(BundleInvocation(b, cmd, args, envs)).Ok? ==>
      var out := exec(BundleInvocation(b, cmd, args, envs)).value;
      && (out.status.Some? && out.status.value != 0 ==>
            r.value == Err("'bundle' command failed (status: " + IntToString(out.status.value) + ")\nError: " + out.stderr))
      && (out.status.None? ==>
            r.value == Err("Failed to execute 'bundle' command: " + out.stderr))
  {
    match ToStr(b.GemfilePath())
    case None => Traced(Err("Invalid path to Gemfile"), [])
    case Some(gemfile) =>
      var inv := Invocation("bundle", [cmd] + args, envs + [("BUNDLE_GEMFILE", gemfile)]);
      var value :=
        match exec(inv)
        case Err(e) => Err(e)
        case Ok(out) =>
          if out.status == Some(0) then Ok(out.stdout)
          else if out.status.Some? then
            Err("'bundle' command failed (status: " + IntToString(out.status.value) + ")\nError: " + out.stderr)
          else Err("Failed to execute 'bundle' command: " + out.stderr);
      Traced(value, [inv])
  }

  /** `installed_gem_version`: `bundle info --version <name>`; the output is
      returned as printed, without trimming. */
  function InstalledGemVersion(b: Bundler, exec: Exec, name: string, envs: EnvList)
    : (r: Traced<Result<string, string>>)
    ensures r.calls == [Invocation("bundle", ["info", "--version", name],
      envs + [("BUNDLE_GEMFILE", b.GemfilePath().text)])]
    ensures r.value.Ok? <==> ExitedZero(exec(BundleInvocation(b, "info", ["--version", name], envs)))
    ensures r.value.Ok? ==> r.value.value == exec(BundleInvocation(b, "info", ["--version", name], envs)).value.stdout
  {
    assert ["info"] + ["--version", name] == ["info", "--version", name];
    ExecuteBundleCommand(b, exec, "info", ["--version", name], envs)
  }

  /** `BUNDLE_GEMFILE` is the last variable, so it overrides any value the
      caller passed, and names the working directory's `Gemfile`. */
  lemma GemfileComesLast(b: Bundler, cmd: string, args: seq<string>, envs: EnvList)
    requires |b.workingDir| > 0 && b.workingDir[|b.workingDir| - 1] != '/'
    ensures var env := BundleInvocation(b, cmd, args, envs).env;
      && env[|env| - 1] == ("BUNDLE_GEMFILE", b.workingDir + "/Gemfile")
      && env[..|env| - 1] == envs
  {
    assert JoinText(b.workingDir, "Gemfile") == b.workingDir + "/" + "Gemfile";
    assert b.workingDir + "/" + "Gemfile" == b.workingDir + "/Gemfile";
  }
}
