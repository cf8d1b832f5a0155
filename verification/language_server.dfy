/** How a Ruby language server is located and launched
    (src/language_servers/language_server.rs): a user-configured binary, the
    project's bundle, the `PATH`, or the extension's own gem home, in that
    order of preference. */
module LanguageServer {
  import opened Common
  import opened Text
  import opened Paths
  import opened Executor
  import opened Gemset
  import Bundler

  // ---------------------------------------------------------------------------
  // Settings and the editor's view of a worktree

  /** The part of a JSON settings value that is consulted. */
  datatype Json = JBool(b: bool) | JObject(fields: map<string, Json>) | JOther

  /** The settings are an object whose `key` holds a boolean. */
  predicate IsFlagSet(settings: Option<Json>, key: string) {
    settings.Some? && settings.value.JObject? && key in settings.value.fields && settings.value.fields[key].JBool?
  }

  /** `settings[key].as_bool()` with a default: the value only when the
      settings are an object whose `key` holds a boolean. */
  function SettingFlag(settings: Option<Json>, key: string, default: bool): (r: bool)
    ensures IsFlagSet(settings, key) ==> r == settings.value.fields[key].b
    ensures !IsFlagSet(settings, key) ==> r == default
  {
    match settings
    case Some(JObject(fields)) =>
      if key in fields && fields[key].JBool? then fields[key].b else default
    case _ => default
  }

  /** The `binary` section of a server's settings. */
  datatype BinarySettings = BinarySettings(path: Option<string>, arguments: Option<seq<string>>)

  /** A server's settings: the `binary` section and free-form `settings`. */
  datatype LspSettings = LspSettings(binary: Option<BinarySettings>, settings: Option<Json>)

  /** What the editor answers about a worktree. */
  datatype Worktree = Worktree(
    rootPath: string,
    shellEnv: EnvList,
    which: string -> Option<string>,
    readTextFile: string -> Result<string, string>,
    lspSettings: string -> Result<LspSettings, string>)

  /** The extension process: its executor, the hash used for gem homes and
      its current directory (which can fail to be read). */
  datatype Host = Host(exec: Exec, hash: string -> u64, currentDir: Result<OsPath, string>)

  /** The constants and argument hook of one language server. */
  datatype Tool = Tool(serverId: string, executableName: string, gemName: string, executableArgs: seq<string>)

  /** Environment handed to the editor: the shell's pairs, or the gem
      home's variable map. */
  datatype Environment = Pairs(pairs: EnvList) | Keyed(vars: map<string, string>)

  /** `LanguageServerBinary`. */
  datatype Binary = Binary(path: string, args: Option<seq<string>>, env: Option<Environment>)

  /** `zed::Command`. */
  datatype Command = Command(command: string, args: seq<string>, env: Environment)

  // ---------------------------------------------------------------------------
  // The extension's gem home

  /** An anyhow error as the editor sees it (`e.to_string()`). */
  function Surface(r: Result<(), Anyhow>): (s: Result<(), string>)
    ensures s.Ok? <==> r.Ok?
    ensures r.Err? ==> s.error == r.error.Display()
  {
    match r
    case Ok(_) => Ok(())
    case Err(e) => Err(e.Display())
  }

  /** How many `gem install`, `gem update` and `gem uninstall` calls a
      trace holds. */
  function Installs(calls: seq<Invocation>): nat { CountCalls(calls, "gem", "install") }
  function Updates(calls: seq<Invocation>): nat { CountCalls(calls, "gem", "update") }
  function Uninstalls(calls: seq<Invocation>): nat { CountCalls(calls, "gem", "uninstall") }

  lemma MutationsAppend(a: seq<Invocation>, b: seq<Invocation>)
    ensures Installs(a + b) == Installs(a) + Installs(b)
    ensures Updates(a + b) == Updates(a) + Updates(b)
    ensures Uninstalls(a + b) == Uninstalls(a) + Uninstalls(b)
  {
    CountCallsAppend(a, b, "gem", "install");
    CountCallsAppend(a, b, "gem", "update");
    CountCallsAppend(a, b, "gem", "uninstall");
  }

  /** A gem operation's call counts as a mutation only for its own
      subcommand. */
  lemma MutationsOfGemCall(g: Gemset, cmd: string, args: seq<string>)
    ensures Installs([GemInvocation(g, cmd, args)]) == if cmd == "install" then 1 else 0
    ensures Updates([GemInvocation(g, cmd, args)]) == if cmd == "update" then 1 else 0
    ensures Uninstalls([GemInvocation(g, cmd, args)]) == if cmd == "uninstall" then 1 else 0
  {
    var calls := [GemInvocation(g, cmd, args)];
    assert calls[1..] == [];
  }

  /** The update half of a refresh: `gem update <name>`, and when it
      succeeds, `gem uninstall <name> --version <previous>`. */
  function UpdateAndUninstall(g: Gemset, exec: Exec, name: string, previous: string): (r: Traced<Result<(), string>>)
    ensures OnlyRuns(r.calls, "gem")
    ensures Installs(r.calls) == 0 && Uninstalls(r.calls) <= Updates(r.calls) <= 1
    ensures g.gemHome.unicode ==> |r.calls| >= 1 && Updates(r.calls) == 1
    ensures !(g.gemHome.unicode && ExitedZero(exec(GemInvocation(g, "update", [name])))) ==>
      r.value == Err("Failed to update gem '" + name + "'")
    ensures g.gemHome.unicode && ExitedZero(exec(GemInvocation(g, "update", [name]))) ==>
      && r.calls[|r.calls| - 1] == GemInvocation(g, "uninstall", [name, "--version", previous])
      && (r.value.Ok? <==> ExitedZero(exec(GemInvocation(g, "uninstall", [name, "--version", previous]))))
  {
    var update := UpdateGem(g, exec, name);
    MutationsOfGemCall(g, "update", [name]);
    if update.value.Err? then
      Traced(Err(update.value.error.Display()), update.calls)
    else
      var uninstall := UninstallGem(g, exec, name, previous);
      MutationsOfGemCall(g, "uninstall", [name, "--version", previous]);
      MutationsAppend(update.calls, uninstall.calls);
      Traced(Surface(uninstall.value), update.calls + uninstall.calls)
  }

  /** For a gem already present: check `gem outdated`; if it lists the gem,
      update it and uninstall the version that was present before. */
  function RefreshGem(g: Gemset, exec: Exec, name: string, previous: string): (r: Traced<Result<(), string>>)
    ensures OnlyRuns(r.calls, "gem")
    ensures Installs(r.calls) == 0
    ensures Uninstalls(r.calls) <= Updates(r.calls) <= 1
    ensures IsOutdatedGem(g, exec, name).value.Err? ==>
      r.value == Err(IsOutdatedGem(g, exec, name).value.error.Display()) && Updates(r.calls) == 0
    ensures IsOutdatedGem(g, exec, name).value == Ok(false) ==>
      r.value == Ok(()) && Updates(r.calls) == 0
    ensures IsOutdatedGem(g, exec, name).value == Ok(true) ==>
      && Updates(r.calls) == 1
      && (!ExitedZero(exec(GemInvocation(g, "update", [name]))) ==>
            r.value == Err("Failed to update gem '" + name + "'"))
      && (ExitedZero(exec(GemInvocation(g, "update", [name]))) ==>
            && r.calls[|r.calls| - 1] == GemInvocation(g, "uninstall", [name, "--version", previous])
            && (r.value.Ok? <==> ExitedZero(exec(GemInvocation(g, "uninstall", [name, "--version", previous])))))
  {
    var outdated := IsOutdatedGem(g, exec, name);
    MutationsOfGemCall(g, "outdated", []);
    match outdated.value
    case Err(e) => Traced(Err(e.Display()), outdated.calls)
    case Ok(false) => Traced(Ok(()), outdated.calls)
    case Ok(true) =>
      var rest := UpdateAndUninstall(g, exec, name, previous);
      MutationsAppend(outdated.calls, rest.calls);
      var calls := outdated.calls + rest.calls;
      assert calls[|calls| - 1] == rest.calls[|rest.calls| - 1];
      Traced(rest.value, calls)
  }

  /** The install half of provisioning: one `gem install` of the gem. */
  function FreshInstall(g: Gemset, exec: Exec, name: string): (r: Traced<Result<(), string>>)
    ensures g.gemHome.unicode ==> r.calls == [GemInvocation(g, "install", InstallArgs(name))]
    ensures !g.gemHome.unicode ==> r.calls == []
    ensures OnlyRuns(r.calls, "gem")
    ensures Installs(r.calls) == (if g.gemHome.unicode then 1 else 0)
    ensures Updates(r.calls) == 0 && Uninstalls(r.calls) == 0
    ensures r.value.Ok? <==> g.gemHome.unicode && ExitedZero(exec(GemInvocation(g, "install", InstallArgs(name))))
    ensures r.value.Err? ==> r.value.error == "Failed to install gem '" + name + "'"
  {
    var install := InstallGem(g, exec, name);
    MutationsOfGemCall(g, "install", InstallArgs(name));
    assert GemInvocation(g, "install", InstallArgs(name)).args
      == ["install", "--norc", "--no-user-install", "--no-format-executable", "--no-document", name];
    Traced(Surface(install.value), install.calls)
  }

  /** `gem list` is no mutation and runs only `gem`. */
  lemma ListedCalls(g: Gemset, exec: Exec, name: string)
    ensures var calls := InstalledGemVersion(g, exec, name).calls;
      OnlyRuns(calls, "gem") && Installs(calls) == 0 && Updates(calls) == 0 && Uninstalls(calls) == 0
  {
    MutationsOfGemCall(g, "list", ["--exact", name]);
    assert GemInvocation(g, "list", ["--exact", name]).args == ["list", "--norc", "--exact", name];
  }

  /** Make sure the gem is in the gem home: install it when `gem list` does
      not show it, otherwise refresh it. At most one of install and update
      runs, and an uninstall only follows an update. */
  function ProvisionGem(g: Gemset, exec: Exec, name: string): (r: Traced<Result<(), string>>)
    ensures OnlyRuns(r.calls, "gem")
    ensures Installs(r.calls) + Updates(r.calls) <= 1
    ensures Uninstalls(r.calls) <= Updates(r.calls)
    ensures InstalledGemVersion(g, exec, name).value.Err? ==>
      && r.value == Err(InstalledGemVersion(g, exec, name).value.error.Display())
      && Installs(r.calls) == 0 && Updates(r.calls) == 0
    ensures InstalledGemVersion(g, exec, name).value == Ok(None) ==>
      && Installs(r.calls) == 1 && Updates(r.calls) == 0
      && (r.value.Ok? <==> ExitedZero(exec(GemInvocation(g, "install", InstallArgs(name)))))
      && (r.value.Err? ==> r.value.error == "Failed to install gem '" + name + "'")
    ensures var listed := InstalledGemVersion(g, exec, name).value;
      listed.Ok? && listed.value.Some? ==>
        && Installs(r.calls) == 0
        && r.calls == InstalledGemVersion(g, exec, name).calls + RefreshGem(g, exec, name, listed.value.value).calls
        && r.value == RefreshGem(g, exec, name, listed.value.value).value
  {
    var listed := InstalledGemVersion(g, exec, name);
    ListedCalls(g, exec, name);
    match listed.value
    case Err(e) =>
      Traced(Err(e.Display()), listed.calls)
    case Ok(None) =>
      var install := FreshInstall(g, exec, name);
      MutationsAppend(listed.calls, install.calls);
      Traced(install.value, listed.calls + install.calls)
    case Ok(Some(v)) =>
      var refresh := RefreshGem(g, exec, name, v);
      MutationsAppend(listed.calls, refresh.calls);
      Traced(refresh.value, listed.calls + refresh.calls)
  }

  /** The gem home the extension uses for a worktree, when its directory
      and the Ruby version can be read. */
  function ExtensionGemset(wt: Worktree, host: Host): Option<Gemset> {
    if host.currentDir.Err? then None
    else
      var home := VersionedGemHome(host.currentDir.value, wt.shellEnv, host.exec, host.hash).value;
      if home.Err? then None else Some(NewGemset(home.value, Some(wt.shellEnv)))
  }

  /** The gem home's part of `extension_gemset_language_server_binary`:
      provision the gem, then launch its executable from the gem home with
      the gem home's environment. */
  function GemsetBinary(tool: Tool, g: Gemset, exec: Exec): (r: Traced<Result<Binary, string>>)
    ensures r.calls == ProvisionGem(g, exec, tool.gemName).calls
    ensures r.value.Ok? <==> ProvisionGem(g, exec, tool.gemName).value.Ok? && g.gemHome.unicode
    ensures ProvisionGem(g, exec, tool.gemName).value.Err? ==> r.value == Err(ProvisionGem(g, exec, tool.gemName).value.error)
    ensures r.value.Ok? ==>
      r.value.value == Binary(GemBinPath(g, tool.executableName).value, Some(tool.executableArgs), Some(Keyed(Env(g))))
  {
    var provision := ProvisionGem(g, exec, tool.gemName);
    if provision.value.Err? then Traced(Err(provision.value.error), provision.calls)
    else
      match GemBinPath(g, tool.executableName)
      case Err(e) => Traced(Err(e.Display()), provision.calls)
      case Ok(path) => Traced(Ok(Binary(path, Some(tool.executableArgs), Some(Keyed(Env(g))))), provision.calls)
  }

  /** `extension_gemset_language_server_binary`: find the gem home for the
      running Ruby, then launch the server from it. */
  function ExtensionGemsetBinary(tool: Tool, wt: Worktree, host: Host): (r: Traced<Result<Binary, string>>)
    ensures host.currentDir.Err? ==>
      r == Traced(Err("Failed to get extension directory: " + host.currentDir.error), [])
    ensures host.currentDir.Ok? ==> |r.calls| >= 1 && r.calls[0] == RubyVersionInvocation(wt.shellEnv)
    ensures r.value.Ok? ==> ExtensionGemset(wt, host).Some?
    ensures ExtensionGemset(wt, host).Some? ==>
      r.value == GemsetBinary(tool, ExtensionGemset(wt, host).value, host.exec).value
  {
    match host.currentDir
    case Err(e) => Traced(Err("Failed to get extension directory: " + e), [])
    case Ok(base) =>
      var home := VersionedGemHome(base, wt.shellEnv, host.exec, host.hash);
      match ExtensionGemset(wt, host)
      case None => Traced(Err(home.value.error.Display()), home.calls)
      case Some(g) =>
        var launch := GemsetBinary(tool, g, host.exec);
        Traced(launch.value, home.calls + launch.calls)
  }

  /** Launching from the gem home never runs `bundle`, and installs or
      updates at most one gem. */
  lemma ExtensionGemsetMutations(tool: Tool, wt: Worktree, host: Host)
    ensures var calls := ExtensionGemsetBinary(tool, wt, host).calls;
      NeverRuns(calls, "bundle") && Installs(calls) + Updates(calls) <= 1
  {
    if host.currentDir.Ok? {
      var ruby := [RubyVersionInvocation(wt.shellEnv)];
      RubyVersionMutations(wt.shellEnv);
      var calls := ExtensionGemsetBinary(tool, wt, host).calls;
      match ExtensionGemset(wt, host)
      case None =>
        assert calls == ruby;
      case Some(g) =>
        var launch := GemsetBinary(tool, g, host.exec);
        assert calls == ruby + launch.calls;
        OnlyGemNeverBundle(launch.calls);
        MutationsAppend(ruby, launch.calls);
        NeverRunsAppend(ruby, launch.calls, "bundle");
    }
  }

  /** `ruby --version` is no gem mutation and no `bundle` call. */
  lemma RubyVersionMutations(envs: EnvList)
    ensures var calls := [RubyVersionInvocation(envs)];
      NeverRuns(calls, "bundle") && Installs(calls) == 0 && Updates(calls) == 0 && Uninstalls(calls) == 0
  {
    var calls := [RubyVersionInvocation(envs)];
    assert calls[1..] == [];
  }

  /** A trace of `gem` calls runs no `bundle`. */
  lemma OnlyGemNeverBundle(calls: seq<Invocation>)
    requires OnlyRuns(calls, "gem")
    ensures NeverRuns(calls, "bundle")
  {
  }

  /** `try_find_on_path_or_extension_gemset`: the executable on the
      worktree's `PATH`, run with the shell environment, before the gem home. */
  function TryFindOnPathOrExtensionGemset(tool: Tool, wt: Worktree, host: Host): (r: Traced<Result<Binary, string>>)
    ensures wt.which(tool.executableName).Some? ==>
      && r.calls == []
      && r.value == Ok(Binary(wt.which(tool.executableName).value, Some(tool.executableArgs), Some(Pairs(wt.shellEnv))))
    ensures wt.which(tool.executableName).None? ==>
      && r.calls == ExtensionGemsetBinary(tool, wt, host).calls
      && r.value == ExtensionGemsetBinary(tool, wt, host).value
    ensures NeverRuns(r.calls, "bundle")
    ensures Installs(r.calls) + Updates(r.calls) <= 1
  {
    match wt.which(tool.executableName)
    case Some(path) => Traced(Ok(Binary(path, Some(tool.executableArgs), Some(Pairs(wt.shellEnv)))), [])
    case None =>
      ExtensionGemsetMutations(tool, wt, host);
      ExtensionGemsetBinary(tool, wt, host)
  }

  /** The binary the user configured, if the settings name a path. */
  function OverridePath(settings: LspSettings): Option<string> {
    if settings.binary.Some? && settings.binary.value.path.Some? then Some(settings.binary.value.path.value)
    else None
  }

  /** `bundle info --version <gem>` in the worktree root, with the shell
      environment. */
  function BundleInfoInvocation(tool: Tool, wt: Worktree): Invocation {
    Bundler.BundleInvocation(Bundler.Bundler(wt.rootPath), "info", ["--version", tool.gemName], wt.shellEnv)
  }

  /** `language_server_binary`: a configured path wins and runs nothing;
      otherwise, unless `use_bundler` is false, a project bundle that has
      the gem is used through `bundle exec`; otherwise the `PATH`, then the
      extension's gem home. */
  function LanguageServerBinary(tool: Tool, wt: Worktree, host: Host): (r: Traced<Result<Binary, string>>)
    ensures wt.lspSettings(tool.serverId).Err? ==> r == Traced(Err(wt.lspSettings(tool.serverId).error), [])
    ensures wt.lspSettings(tool.serverId).Ok? && OverridePath(wt.lspSettings(tool.serverId).value).Some? ==>
      var settings := wt.lspSettings(tool.serverId).value;
      && r.calls == []
      && r.value == Ok(Binary(OverridePath(settings).value, settings.binary.value.arguments, Some(Pairs(wt.shellEnv))))
    ensures wt.lspSettings(tool.serverId).Ok? && OverridePath(wt.lspSettings(tool.serverId).value).None? ==>
      var useBundler := SettingFlag(wt.lspSettings(tool.serverId).value.settings, "use_bundler", true);
      && (!useBundler ==> NeverRuns(r.calls, "bundle") && r == TryFindOnPathOrExtensionGemset(tool, wt, host))
      && (useBundler ==> |r.calls| >= 1 && r.calls[0] == BundleInfoInvocation(tool, wt))
      && (useBundler && !ExitedZero(host.exec(BundleInfoInvocation(tool, wt))) ==>
            && r.calls == [BundleInfoInvocation(tool, wt)] + TryFindOnPathOrExtensionGemset(tool, wt, host).calls
            && r.value == TryFindOnPathOrExtensionGemset(tool, wt, host).value)
      && (useBundler && ExitedZero(host.exec(BundleInfoInvocation(tool, wt))) ==>
            && r.calls == [BundleInfoInvocation(tool, wt)]
            && (wt.which("bundle").None? ==> r.value == Err("Unable to find 'bundle' command"))
            && (wt.which("bundle").Some? ==> r.value == Ok(Binary(wt.which("bundle").value,
                  Some(["exec", tool.executableName] + tool.executableArgs), Some(Pairs(wt.shellEnv))))))
    ensures Installs(r.calls) + Updates(r.calls) <= 1
  {
    match wt.lspSettings(tool.serverId)
    case Err(e) => Traced(Err(e), [])
    case Ok(settings) =>
      if OverridePath(settings).Some? then
        Traced(Ok(Binary(OverridePath(settings).value, settings.binary.value.arguments, Some(Pairs(wt.shellEnv)))), [])
      else if !SettingFlag(settings.settings, "use_bundler", true) then
        TryFindOnPathOrExtensionGemset(tool, wt, host)
      else
        var version := Bundler.InstalledGemVersion(Bundler.Bundler(wt.rootPath), host.exec, tool.gemName, wt.shellEnv);
        assert version.calls == [BundleInfoInvocation(tool, wt)];
        assert Installs(version.calls) == 0 && Updates(version.calls) == 0 by {
          assert version.calls[1..] == [];
        }
        match version.value
        case Ok(_) =>
          (match wt.which("bundle")
           case None => Traced(Err("Unable to find 'bundle' command"), version.calls)
           case Some(bundle) =>
             Traced(Ok(Binary(bundle, Some(["exec", tool.executableName] + tool.executableArgs),
               Some(Pairs(wt.shellEnv)))), version.calls))
        case Err(_) =>
          var fallback := TryFindOnPathOrExtensionGemset(tool, wt, host);
          MutationsAppend(version.calls, fallback.calls);
          Traced(fallback.value, version.calls + fallback.calls)
  }

  /** `language_server_command`: the binary's arguments, or the server's
      own when the binary has none; its environment, or none. */
  function LanguageServerCommand(tool: Tool, wt: Worktree, host: Host): (r: Traced<Result<Command, string>>)
    ensures r.calls == LanguageServerBinary(tool, wt, host).calls
    ensures r.value.Ok? <==> LanguageServerBinary(tool, wt, host).value.Ok?
    ensures r.value.Err? ==> r.value.error == LanguageServerBinary(tool, wt, host).value.error
    ensures r.value.Ok? ==>
      var b := LanguageServerBinary(tool, wt, host).value.value;
      && r.value.value.command == b.path
      && (b.args.Some? ==> r.value.value.args == b.args.value)
      && (b.args.None? ==> r.value.value.args == tool.executableArgs)
      && (b.env.Some? ==> r.value.value.env == b.env.value)
      && (b.env.None? ==> r.value.value.env == Pairs([]))
  {
    var binary := LanguageServerBinary(tool, wt, host);
    match binary.value
    case Err(e) => Traced(Err(e), binary.calls)
    case Ok(b) =>
      Traced(Ok(Command(b.path, b.args.GetOr(tool.executableArgs), b.env.GetOr(Pairs([])))), binary.calls)
  }

  /** Unless the user configured the binary, the server is always launched
      with its own arguments: directly, or after `bundle exec <executable>`. */
  lemma {:induction false} LaunchArguments(tool: Tool, wt: Worktree, host: Host)
    requires LanguageServerCommand(tool, wt, host).value.Ok?
    requires wt.lspSettings(tool.serverId).Ok? && OverridePath(wt.lspSettings(tool.serverId).value).None?
    ensures var args := LanguageServerCommand(tool, wt, host).value.value.args;
      args == tool.executableArgs || args == ["exec", tool.executableName] + tool.executableArgs
  {
    var settings := wt.lspSettings(tool.serverId).value;
    var b := LanguageServerBinary(tool, wt, host).value.value;
    if !SettingFlag(settings.settings, "use_bundler", true) || !ExitedZero(host.exec(BundleInfoInvocation(tool, wt))) {
      var found := TryFindOnPathOrExtensionGemset(tool, wt, host);
      assert b.args == Some(tool.executableArgs);
    }
  }
}
