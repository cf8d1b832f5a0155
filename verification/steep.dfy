/** The Steep language server (src/language_servers/steep.rs): the shared
    launch logic behind a gate that, unless switched off, demands a
    `Steepfile` in the project root. */
module Steep {
  import opened Common
  import opened Executor
  import opened LanguageServer

  /** Steep's identity: server id, executable, gem, and `langserver` as its
      only argument. */
  const SteepTool: Tool := Tool("steep", "steep", "steep", ["langserver"])

  const MissingSteepfile: string :=
    "Steep language server requires a Steepfile in the project root. "
    + "You can disable this requirement by setting 'require_root_steepfile': false in your LSP settings."

  /** `require_root_steepfile`, true unless the settings hold `false`. */
  function RequireRootSteepfile(settings: LspSettings): (r: bool)
    ensures !r <==> (IsFlagSet(settings.settings, "require_root_steepfile")
                     && !settings.settings.value.fields["require_root_steepfile"].b)
  {
    SettingFlag(settings.settings, "require_root_steepfile", true)
  }

  /** `language_server_command`: a settings error, then the `Steepfile` gate
      (which runs nothing), then the shared launch logic with `langserver`
      as the default arguments and no environment as the default. */
  function SteepCommand(wt: Worktree, host: Host): (r: Traced<Result<Command, string>>)
    ensures wt.lspSettings(SteepTool.serverId).Err? ==>
      r == Traced(Err(wt.lspSettings(SteepTool.serverId).error), [])
    ensures wt.lspSettings(SteepTool.serverId).Ok? ==>
      var settings := wt.lspSettings(SteepTool.serverId).value;
      && (RequireRootSteepfile(settings) && wt.readTextFile("Steepfile").Err? ==>
            r == Traced(Err(MissingSteepfile), []))
      && (!RequireRootSteepfile(settings) || wt.readTextFile("Steepfile").Ok? ==>
            r == LanguageServerCommand(SteepTool, wt, host))
  {
    match wt.lspSettings(SteepTool.serverId)
    case Err(e) => Traced(Err(e), [])
    case Ok(settings) =>
      if RequireRootSteepfile(settings) && wt.readTextFile("Steepfile").Err? then Traced(Err(MissingSteepfile), [])
      else LanguageServerCommand(SteepTool, wt, host)
  }

  /** A launched Steep either found a readable `Steepfile` or had the
      requirement switched off, and was launched by the shared logic. */
  lemma SteepPassedGate(wt: Worktree, host: Host)
    requires SteepCommand(wt, host).value.Ok?
    ensures wt.lspSettings(SteepTool.serverId).Ok?
    ensures wt.readTextFile("Steepfile").Ok? || !RequireRootSteepfile(wt.lspSettings(SteepTool.serverId).value)
    ensures SteepCommand(wt, host) == LanguageServerCommand(SteepTool, wt, host)
  {
  }

  /** Unless configured otherwise, a launched Steep runs `langserver`,
      directly or through `bundle exec steep`. */
  lemma {:induction false} SteepRunsLangserver(wt: Worktree, host: Host)
    requires SteepCommand(wt, host).value.Ok?
    requires wt.lspSettings(SteepTool.serverId).Ok? && OverridePath(wt.lspSettings(SteepTool.serverId).value).None?
    ensures var args := SteepCommand(wt, host).value.value.args;
      args == ["langserver"] || args == ["exec", "steep", "langserver"]
  {
    SteepPassedGate(wt, host);
    LaunchArguments(SteepTool, wt, host);
    var args := LanguageServerCommand(SteepTool, wt, host).value.value.args;
    assert args == ["langserver"] || args == ["exec", "steep"] + ["langserver"];
    assert ["exec", "steep"] + ["langserver"] == ["exec", "steep", "langserver"];
  }
}
