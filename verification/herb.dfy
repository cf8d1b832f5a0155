/** The Herb language server (src/language_servers/herb.rs): an npm package
    installed into the extension's directory and run with Node. The
    extension remembers that it found the server script so that later
    launches skip npm while the script is still on disk. */
module Herb {
  import opened Common
  import opened Paths
  import opened LanguageServer

  /** The server script, relative to the extension's directory. */
  const ServerPath: string := "node_modules/@herb-tools/language-server/dist/herb-language-server"
  const PackageName: string := "@herb-tools/language-server"

  /** Herb's identity; it is launched through Node with `--stdio`. */
  const HerbTool: Tool := Tool("herb", "herb", "herb", ["--stdio"])

  /** An installed package that lacks the server script. */
  const MissingScript: string :=
    "installed package '" + PackageName + "' did not contain expected path '" + ServerPath + "'"

  /** The extension's state: whether a launch has found the server. */
  datatype Herb = Herb(didFindServer: bool)

  /** `Herb::new`: nothing found yet. */
  function NewHerb(): (h: Herb)
    ensures !h.didFindServer
  {
    Herb(false)
  }

  /** What the editor's npm and Node queries answer. `install` is the
      outcome of installing a version of the package. */
  datatype Npm = Npm(
    latestVersion: Result<string, string>,
    installedVersion: Result<Option<string>, string>,
    install: string -> Result<(), string>,
    nodeBinaryPath: Result<string, string>)

  /** Whether the server script is a file: before a launch, and after an
      install attempt during it. */
  datatype Disk = Disk(existsBefore: bool, existsAfterInstall: bool)

  /** The queries a launch makes, in order. */
  datatype NpmCall = LatestVersion | InstalledVersion | InstallPackage(version: string) | NodeBinaryPath

  /** A launch step: the extension's new state, the outcome, and the
      queries it made. */
  datatype Step<+T> = Step(state: Herb, value: Result<T, string>, calls: seq<NpmCall>)

  /** The script was found before and is still there: npm is not asked. */
  predicate Cached(h: Herb, disk: Disk) {
    h.didFindServer && disk.existsBefore
  }

  /** The launch has to install the latest version: the script is missing,
      or the installed version is not the latest. A failing query for the
      installed version is asked only when the script exists. */
  predicate NeedsInstall(h: Herb, npm: Npm, disk: Disk) {
    && !Cached(h, disk)
    && npm.latestVersion.Ok?
    && (!disk.existsBefore
        || (npm.installedVersion.Ok? && npm.installedVersion.value != Some(npm.latestVersion.value)))
  }

  /** The install at the end of `server_script_path`: an install error is
      forgiven when the script exists afterwards; a successful install that
      left no script is an error. */
  function InstallLatest(h: Herb, npm: Npm, disk: Disk, version: string, prior: seq<NpmCall>)
    : (r: Step<string>)
    ensures r.calls == prior + [InstallPackage(version)]
    ensures r.value.Ok? <==> disk.existsAfterInstall
    ensures r.value.Ok? ==> r.value.value == ServerPath && r.state == Herb(true)
    ensures r.value.Err? ==> r.state == h
    ensures !disk.existsAfterInstall && npm.install(version).Ok? ==> r.value == Err(MissingScript)
    ensures !disk.existsAfterInstall && npm.install(version).Err? ==> r.value == Err(npm.install(version).error)
  {
    var calls := prior + [InstallPackage(version)];
    if disk.existsAfterInstall then Step(Herb(true), Ok(ServerPath), calls)
    else
      match npm.install(version)
      case Ok(_) => Step(h, Err(MissingScript), calls)
      case Err(e) => Step(h, Err(e), calls)
  }

  /** `server_script_path`. */
  function ServerScriptPath(h: Herb, npm: Npm, disk: Disk): (r: Step<string>)
    ensures Cached(h, disk) ==> r == Step(h, Ok(ServerPath), [])
    ensures !Cached(h, disk) ==> |r.calls| >= 1 && r.calls[0] == LatestVersion
    ensures r.value.Ok? ==> r.value.value == ServerPath && r.state == Herb(true)
    ensures r.value.Err? ==> r.state == h
    // The installed version is asked for only when the script exists.
    ensures InstalledVersion in r.calls <==> !Cached(h, disk) && npm.latestVersion.Ok? && disk.existsBefore
    // At most one install, always of the latest version, and exactly when needed.
    ensures forall i :: 0 <= i < |r.calls| && r.calls[i].InstallPackage? ==>
      i == |r.calls| - 1 && npm.latestVersion == Ok(r.calls[i].version)
    ensures NeedsInstall(h, npm, disk) <==> |r.calls| >= 1 && r.calls[|r.calls| - 1].InstallPackage?
    ensures NeedsInstall(h, npm, disk) ==> (r.value.Ok? <==> disk.existsAfterInstall)
    ensures NeedsInstall(h, npm, disk) && !disk.existsAfterInstall ==>
      var outcome := npm.install(npm.latestVersion.value);
      r.value == if outcome.Ok? then Err(MissingScript) else Err(outcome.error)
    // Without an install, the queries decide.
    ensures !Cached(h, disk) && !NeedsInstall(h, npm, disk) ==>
      && (npm.latestVersion.Err? ==> r.value == Err(npm.latestVersion.error))
      && (npm.latestVersion.Ok? && npm.installedVersion.Err? ==> r.value == Err(npm.installedVersion.error))
      && (npm.latestVersion.Ok? && npm.installedVersion.Ok? ==> r.value == Ok(ServerPath))
  {
    if Cached(h, disk) then Step(h, Ok(ServerPath), [])
    else
      match npm.latestVersion
      case Err(e) => Step(h, Err(e), [LatestVersion])
      case Ok(version) =>
        if !disk.existsBefore then InstallLatest(h, npm, disk, version, [LatestVersion])
        else
          match npm.installedVersion
          case Err(e) => Step(h, Err(e), [LatestVersion, InstalledVersion])
          case Ok(installed) =>
            if installed == Some(version) then Step(Herb(true), Ok(ServerPath), [LatestVersion, InstalledVersion])
            else InstallLatest(h, npm, disk, version, [LatestVersion, InstalledVersion])
  }

  /** `language_server_command`: Node runs the script, given by its full
      path in the extension's directory, with `--stdio` and no
      environment. The found-server state is kept even when Node cannot be
      located. */
  function HerbCommand(h: Herb, npm: Npm, disk: Disk, currentDir: OsPath): (r: Step<Command>)
    ensures r.state == ServerScriptPath(h, npm, disk).state
    ensures ServerScriptPath(h, npm, disk).value.Err? ==>
      r.value == Err(ServerScriptPath(h, npm, disk).value.error) && r.calls == ServerScriptPath(h, npm, disk).calls
    ensures ServerScriptPath(h, npm, disk).value.Ok? ==>
      && r.calls == ServerScriptPath(h, npm, disk).calls + [NodeBinaryPath]
      && (npm.nodeBinaryPath.Err? ==> r.value == Err(npm.nodeBinaryPath.error))
      && (npm.nodeBinaryPath.Ok? ==>
            r.value == Ok(Command(npm.nodeBinaryPath.value, [JoinPath(currentDir, ServerPath).text, "--stdio"], Pairs([]))))
  {
    var script := ServerScriptPath(h, npm, disk);
    match script.value
    case Err(e) => Step(script.state, Err(e), script.calls)
    case Ok(path) =>
      var calls := script.calls + [NodeBinaryPath];
      match npm.nodeBinaryPath
      case Err(e) => Step(script.state, Err(e), calls)
      case Ok(node) => Step(script.state, Ok(Command(node, [JoinPath(currentDir, path).text, "--stdio"], Pairs([]))), calls)
  }

  /** Once a launch has found the server, the next launch asks npm nothing
      while the script is still there. */
  lemma {:induction false} FoundServerIsCached(h: Herb, npm: Npm, disk: Disk, npm': Npm, disk': Disk)
    requires ServerScriptPath(h, npm, disk).value.Ok?
    requires disk'.existsBefore
    ensures ServerScriptPath(ServerScriptPath(h, npm, disk).state, npm', disk') ==
      Step(Herb(true), Ok(ServerPath), [])
  {
    assert ServerScriptPath(h, npm, disk).state == Herb(true);
  }

  /** A fresh extension always asks npm for the latest version first. */
  lemma {:induction false} FreshHerbAsksNpm(npm: Npm, disk: Disk)
    ensures var r := ServerScriptPath(NewHerb(), npm, disk); |r.calls| >= 1 && r.calls[0] == LatestVersion
  {
    assert !Cached(NewHerb(), disk);
  }

  /** The script's absolute path ends with the script's relative path. */
  lemma {:induction false} CommandRunsServerScript(h: Herb, npm: Npm, disk: Disk, currentDir: OsPath)
    requires HerbCommand(h, npm, disk, currentDir).value.Ok?
    ensures var c := HerbCommand(h, npm, disk, currentDir).value.value;
      && |c.args| == 2 && c.args[1] == "--stdio"
      && |c.args[0]| >= |ServerPath| && c.args[0][|c.args[0]| - |ServerPath|..] == ServerPath
  {
    var c := HerbCommand(h, npm, disk, currentDir).value.value;
    assert ServerScriptPath(h, npm, disk).value.Ok?;
    assert c.args[0] == JoinText(currentDir.text, ServerPath);
    assert Text.EndsWith(c.args[0], ServerPath);
  }
}
