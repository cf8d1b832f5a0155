# Ruby language servers for Zed — a Dafny model

This project models the part of the Zed Ruby extension that decides how a Ruby
language server is launched, and installs or updates that server when needed.
Dafny proves properties of the model.

- **Gem home** (`Gemset`): the extension keeps its own gem home under the
  extension directory, keyed by the Ruby version, and drives `gem` inside it.
  The model covers:
  - the versioned gem home;
  - the `gem` command line and the mapping of exit statuses;
  - parsing of `gem list` and `gem outdated` output;
  - the install, update and uninstall wrappers;
  - the binary path;
  - the `GEM_PATH`/`PATH` environment merge.
- **Bundler probe** (`Bundler`): `bundle info --version <gem>`, run with
  `BUNDLE_GEMFILE` pinned to the project's `Gemfile`.
- **Resolution chain** (`LanguageServer`): a configured binary path wins.
  Otherwise the chain tries `bundle exec`, unless `use_bundler` is false, then
  the executable on the `PATH`, then the extension's gem home. The gem-home
  step installs a missing gem; an outdated gem is updated and the previous
  version uninstalled. The command's arguments and environment are then filled
  in with defaults.
- **Server variants:**
  - Steep (`Steep`): a `Steepfile` gate.
  - Herb (`Herb`): an npm install state machine.
  - Solargraph (`Solargraph`): bundler or `PATH` only.
  - Ruby LSP (`RubyLsp`).
- **Labels:** completion and symbol labels for Solargraph and Ruby LSP
  (`Labels`, `Solargraph`, `RubyLsp`).
- **Test helpers** (`TestSupport`): line-ending normalisation and
  language-id detection from the test support module.

Everything outside the extension is an oracle passed in as a parameter:

- the process runner, an `Executor.Exec` function from an invocation to an
  exit status with output or an error;
- the editor's queries: worktree `which`, shell environment, file reading and
  LSP settings;
- the npm and Node queries;
- the current directory;
- whether a file exists.

Operations that run programs return `Traced(value, calls)`, where `calls` is
the list of invocations made, in order. This lets ordering be stated: "update,
then uninstall the previous version", "a configured path runs nothing", "the
Steepfile gate runs nothing". Errors built with `anyhow` are modelled as
`Gemset.Anyhow`. Its `Display` is what `to_string()` yields, the outermost
context. Its `Chain` holds every message down to the root cause.

Files:

- `common.dfy`: Option and Result.
- `text.dfy`: splitting, lines, trimming, first token, upper case and decimal
  numerals.
- `paths.dfy`: path joining and conversion to text.
- `executor.dfy`: invocations, outputs, call traces.
- `gemset.dfy`, `bundler.dfy`, `language_server.dfy`, `steep.dfy`, `herb.dfy`,
  `solargraph.dfy`, `ruby_lsp.dfy`: one file per source file.
- `labels.dfy`: code labels and their rendering.
- `test_support.dfy`: the test helpers.

## Model

| member | source | states |
|---|---|---|
| Gemset.VersionedGemHome | src/gemset.rs:11-31 | runs exactly `ruby --version` with the caller's environment; succeeds iff the status is 0, giving `base/gems/<segment of the trimmed stdout>`; a non-zero status, a missing status and a spawn error give the three distinct messages, the spawn error kept as the cause under "Failed to detect Ruby version" |
| Gemset.GemHomeLayout | src/gemset.rs:22-27 | a successful gem home is `<base>/gems/<segment>` for a single non-empty path segment |
| Gemset.GemHomeIgnoresSurroundingWhitespace | src/gemset.rs:23-26 | two `ruby --version` outputs that differ only in surrounding whitespace give the same gem home |
| Gemset.NewGemset | src/gemset.rs:43-58 | missing environment becomes the empty list; the gem home and the pairs are kept in order |
| Gemset.ExecuteGemCommand | src/gemset.rs:165-198 | a non-text gem home fails before anything runs; otherwise exactly one `gem` call with argv `[cmd, "--norc"] ++ args` and env `GEM_HOME` then the ambient pairs in order; status 0 gives stdout, other statuses and spawn errors give the source's messages |
| Gemset.InstallGem | src/gemset.rs:106-118 | one `gem install --norc --no-user-install --no-format-executable --no-document <name>`; a failure is wrapped in "Failed to install gem '<name>'" with the underlying error as its cause |
| Gemset.UpdateGem | src/gemset.rs:120-124 | one `gem update --norc <name>`; a failure is wrapped in "Failed to update gem '<name>'" |
| Gemset.UninstallGem | src/gemset.rs:126-132 | one `gem uninstall --norc <name> --version <version>`; a failure is wrapped in "Failed to uninstall gem '<name>' version <version>" |
| Gemset.MatchListLine | src/gemset.rs:135-145 | a line matched by `^(\S+) \((.+)\)$` yields a whitespace-free, non-empty name and a non-empty version that rebuild the line |
| Gemset.MatchListLineComplete | src/gemset.rs:135-145 | every line of that shape is matched, with its own name and version |
| Gemset.FindListedVersion | src/gemset.rs:141-154 | the version of the first matching line whose name is the gem; none iff no line lists it |
| Gemset.InstalledGemVersion | src/gemset.rs:134-155 | runs `gem list --norc --exact <name>`; on success the value is the first listed version of that gem, with command errors propagated unchanged |
| Gemset.HeadedBySpec | src/gemset.rs:161 | the line scan is true iff some line's first whitespace-delimited token is the name |
| Gemset.IsOutdatedGem | src/gemset.rs:157-163 | runs `gem outdated --norc`; on success, true iff some output line has the gem as its first token |
| Gemset.GemBinPath | src/gemset.rs:61-67 | succeeds iff the gem home is text, giving exactly `<gem home>/bin/<name>`; otherwise "Failed to convert path for '<name>'" |
| Gemset.ToMapLastWins | src/gemset.rs:71-75 | collecting the ambient pairs keeps every key, with the value of its last occurrence |
| Gemset.MergeGemPath | src/gemset.rs:82-92 | an absent `GEM_PATH` becomes the gem home; one already listing the gem home is kept; otherwise the gem home is put in front; a gem home without `:` is always one of the result's entries |
| Gemset.MergeGemPathIdempotent | src/gemset.rs:84-91 | for a gem home without `:`, merging it into an already merged `GEM_PATH` changes nothing |
| Gemset.MergePath | src/gemset.rs:95-100 | an absent `PATH` becomes the bin directory; an existing one becomes exactly `<existing>:<bin directory>`, kept in front with no duplicate check |
| Gemset.PathGrowsOnRemerge | src/gemset.rs:95-100 | `PATH` is not checked for the entry: merging twice appends the bin directory twice |
| Gemset.Env | src/gemset.rs:69-104 | the keys are the ambient keys plus `GEM_PATH` and `PATH`; every other key keeps its (last) ambient value; `GEM_PATH` is the gem home when absent, unchanged when it already lists the gem home, and `<gem home>:<existing>` otherwise; `PATH` is the bin directory when absent and `<existing>:<bin directory>` otherwise |
| Bundler.GemfilePath | src/bundler.rs:46-49 | the Gemfile path of a textual working directory is text ending in `Gemfile`, so the "Invalid path to Gemfile" branch never fires |
| Bundler.ExecuteBundleCommand | src/bundler.rs:40-73 | exactly one `bundle` call with argv `[cmd] ++ args`; succeeds iff the status is 0 with stdout verbatim; an executor error is returned unchanged; a non-zero status gives exactly "'bundle' command failed (status: N)", a newline, "Error: " and stderr; a missing status gives "Failed to execute 'bundle' command: " and stderr |
| Bundler.InstalledGemVersion | src/bundler.rs:30-38 | the probe runs `bundle info --version <name>` and its outcome is that of the command |
| Bundler.GemfileComesLast | src/bundler.rs:51-56 | the caller's environment pairs come first, in order, and `BUNDLE_GEMFILE` is the last pair |
| LanguageServer.SettingFlag | src/language_servers/language_server.rs:162-166 | a boolean setting is its configured value when present and a boolean, the default otherwise |
| LanguageServer.UpdateAndUninstall | src/language_servers/language_server.rs:254-260 | only `gem` runs, with at most one update and no install; an update failure is terminal; after a successful update the last call uninstalls the previously installed version |
| LanguageServer.RefreshGem | src/language_servers/language_server.rs:244-261 | an outdated gem is updated and its previous version uninstalled; an up-to-date gem causes no mutating call; errors are surfaced as their outermost message |
| LanguageServer.FreshInstall | src/language_servers/language_server.rs:279-281 | a missing gem causes exactly one install call; the step succeeds iff that install exits with status 0 |
| LanguageServer.ProvisionGem | src/language_servers/language_server.rs:243-294 | only `gem` runs; at most one install or update; listing errors are terminal; the listed version decides between refresh and install |
| LanguageServer.GemsetBinary | src/language_servers/language_server.rs:263-291 | a provisioned gem home gives the gem's bin path, the server's arguments and the merged gem environment |
| LanguageServer.ExtensionGemsetBinary | src/language_servers/language_server.rs:216-241 | a current-directory failure runs nothing and is reported with "Failed to get extension directory: "; otherwise the first call is `ruby --version` and a success is the gem-home binary |
| LanguageServer.ExtensionGemsetMutations | src/language_servers/language_server.rs:216-295 | the gem-home step never runs `bundle` and installs or updates at most once |
| LanguageServer.TryFindOnPathOrExtensionGemset | src/language_servers/language_server.rs:200-214 | an executable on the `PATH` is used as is, with the shell environment and nothing run; otherwise the gem-home step decides |
| LanguageServer.LanguageServerBinary | src/language_servers/language_server.rs:144-198 | a settings error or a configured path runs nothing; with `use_bundler` false the bundle is never run; otherwise the bundle probe runs first; a successful probe ends the chain (`bundle exec` or the missing-bundle error), a failed one falls through; never more than one install or update |
| LanguageServer.LanguageServerCommand | src/language_servers/language_server.rs:125-142 | the command is the binary's path; missing arguments become the server's default arguments and a missing environment becomes empty; errors pass through with the same calls |
| LanguageServer.LaunchArguments | src/language_servers/language_server.rs:137-141 | without a configured path, a launch runs the server's own arguments, directly or after `exec <executable>` |
| Steep.RequireRootSteepfile | src/language_servers/steep.rs:25-29 | the gate is off iff the settings hold `require_root_steepfile` as the boolean false |
| Steep.SteepCommand | src/language_servers/steep.rs:18-49 | a settings error or a missing `Steepfile` under the gate gives an error without running anything; otherwise the launch is the shared one with `langserver` as the default arguments |
| Steep.SteepPassedGate | src/language_servers/steep.rs:31-37 | a launched Steep had a readable `Steepfile` or the gate off |
| Steep.SteepRunsLangserver | src/language_servers/steep.rs:14-16 | without a configured path, Steep runs `langserver` or `exec steep langserver` |
| Herb.NewHerb | src/language_servers/herb.rs:23-28 | a new extension has not found the server |
| Herb.InstallLatest | src/language_servers/herb.rs:78-92 | after an install the launch succeeds iff the script exists; a successful install without the script names the package and the path; a failed one gives npm's error |
| Herb.ServerScriptPath | src/language_servers/herb.rs:55-97 | a found, present script asks npm nothing; otherwise the latest version is asked first; the installed version is asked iff the script exists; an install happens iff the script is missing or not the latest version, always of the latest version and last; a success marks the server found |
| Herb.HerbCommand | src/language_servers/herb.rs:30-49 | Node runs the script's path in the current directory with `--stdio` and no environment; script and Node errors pass through |
| Herb.FoundServerIsCached | src/language_servers/herb.rs:60-63 | after a successful launch, the next launch asks npm nothing while the script exists |
| Herb.FreshHerbAsksNpm | src/language_servers/herb.rs:60-69 | a new extension first asks for the latest version |
| Herb.CommandRunsServerScript | src/language_servers/herb.rs:37-48 | the launched script's path ends with the package's server path |
| Solargraph.SolargraphBinaryFor | src/language_servers/solargraph.rs:35-86 | a configured path comes with the configured arguments; otherwise `bundle exec solargraph stdio` or, with `use_bundler` false, `solargraph stdio` from the `PATH`; a missing program is the matching "Unable to find" error |
| Solargraph.SolargraphCommand | src/language_servers/solargraph.rs:21-33 | arguments default to `stdio` and the environment is always empty |
| Solargraph.SolargraphRunsStdio | src/language_servers/solargraph.rs:28-32 | without configured arguments, `stdio` is the last argument |
| Solargraph.LabelForCompletion | src/language_servers/solargraph.rs:88-126 | a label exists iff the kind is class, module, constant, method, keyword, or a variable starting with `@`; its first span is the label, highlighted `type` for classes and modules, `constant`, `function.method` for methods, `string.special.symbol` for a keyword starting with `:` and `keyword` for other keywords, `property` for variables; it renders the label then the item's detail and filters on the label |
| Solargraph.MethodLabel | src/language_servers/solargraph.rs:132-153 | a method symbol gets a label iff its name has exactly one `#`, rendered as the name with the container and the method highlighted |
| Solargraph.LabelForSymbol | src/language_servers/solargraph.rs:128-180 | methods get exactly the method label; classes and modules get code `class <name>` showing the range 6..6+len, i.e. the name; constants get the upper-cased name as code showing 0..len; all are well formed and filtered on the name's length; other kinds get none |
| RubyLsp.LabelForCompletion | src/language_servers/ruby_lsp.rs:25-54 | a label exists iff the kind is class, module, constant, method, reference or keyword; its first span is the label, highlighted `type` for classes and modules, `constant`, `function.method` for methods and references, `keyword` for keywords; it renders the label then only the label details' detail; filtered on the label |
| RubyLsp.LabelForSymbol | src/language_servers/ruby_lsp.rs:56-95 | method codes are `def <name>; end`, class and module codes `class <name>; end`, each showing exactly the name; constants show the upper-cased name |
| RubyLsp.CompletionLabelsAgree | src/language_servers/ruby_lsp.rs:26-33 | for classes, modules, constants and methods the Ruby LSP label equals Solargraph's, given the same detail |
| RubyLsp.ClassLabelsShowName | src/language_servers/ruby_lsp.rs:71-80 | both servers show a class or module as its name, filtered on the whole name, from a `class ` snippet |
| TestSupport.NormalizeMatchesOnePass | tests/support/mod.rs:14-16 | the two replacements equal one pass that turns every CRLF and every lone CR into LF |
| TestSupport.NormalizeWithoutCr | tests/support/mod.rs:14-16 | text without CR is unchanged |
| TestSupport.NormalizedHasNoCr | tests/support/mod.rs:14-16 | the result contains no CR |
| TestSupport.NormalizeIdempotent | tests/support/mod.rs:14-16 | normalising twice equals normalising once |
| TestSupport.AfterFirst | tests/support/mod.rs:29-39 | the component after the first occurrence of the root; none iff the root is absent or only the last component |
| TestSupport.ExtractLanguageId | tests/support/mod.rs:27-40 | with backslashes read as slashes, the id is the component right after the first component equal to the root; none iff the root is absent or only the last component; an id is non-empty, not `.` and without a separator |
| TestSupport.ExtractIgnoresSeparatorStyle | tests/support/mod.rs:28 | a path and its spelling with every backslash turned into a slash give the same id |
| TestSupport.ExtractAtRoot | tests/support/mod.rs:27-40 | in `root<sep>c<sep>d`, with either separator, the id is `c` |
| TestSupport.ExtractBelowRoot | tests/support/mod.rs:27-40 | in `a<sep>root<sep>c<sep>d` with `a` not the root, the id is `c` |
| TestSupport.DetectLanguageId | tests/support/mod.rs:42-57 | the shared id when both paths agree, the single id when only one has one; a mismatch and a double miss are errors with the source's messages |
| TestSupport.DetectIsSymmetric | tests/support/mod.rs:42-57 | swapping the two paths keeps a success, and its id |
| TestSupport.DetectsRubyFromPaths | tests/support/mod.rs:135-142 | the fixture and query paths under `languages/ruby` give `ruby` |
| TestSupport.DetectsWithWindowsSeparators | tests/support/mod.rs:144-151 | the same with backslash separators under `languages\erb` gives `erb` |
| Text.FirstTokenSpec | src/gemset.rs:161 | the first whitespace-delimited token is found iff the text holds a token preceded only by whitespace and followed by whitespace or the end |
| Text.SplitCount | src/gemset.rs:85 | splitting on `:` gives one more piece than there are separators |
| Text.IntToStringRoundTrip | src/gemset.rs:29 | the decimal rendering of a status parses back to the status |
| Labels.NameLabel | src/language_servers/solargraph.rs:110-125 | the name label is well formed, filters on the name, and renders the name then the detail |

## Left out

- The process runner (src/command_executor.rs) is not part of this model. It
  is an oracle from invocation to outcome, called with the argument shape the
  callers use.
- The editor host API is reduced to functions passed in. This covers
  `LspSettings::for_worktree`, `which`, `shell_env`, `read_text_file`,
  `npm_*` and `node_binary_path`.
  - The installation-status updates are left out: they are UI side effects
    with no effect on results.
- `std::env::current_dir` and `fs::metadata` are parameters. Herb's
  `current_dir().unwrap()` panic is not modelled: the directory is given.
- `DefaultHasher` is an uninterpreted function of the trimmed version text
  (`Gemset.VersionSegment`). Nothing is claimed about distinct versions
  having distinct hashes.
- Gemset.Env: the memoisation in a `OnceLock` is not modelled; the
  environment is a pure function of the gem home and the ambient pairs, so
  repeated calls agree trivially. The result is a map, because the source's
  `HashMap` gives no order.
- Gemset.MergeGemPath: `std::env::split_paths` and path equality are
  simplified to splitting on `:` and comparing strings.
- Text and paths are ASCII only. Byte lengths equal character counts, and
  `to_uppercase` and `split_whitespace` use ASCII classes. `to_string_lossy`
  is modelled only for paths that are text; a non-text path's text field is
  used as is.
- TestSupport.ExtractLanguageId: `Path::components` is simplified to `/`
  pieces, dropping empty and `.` pieces. A leading root and `..` are not
  given special treatment.
- TestSupport.DetectLanguageId: the two panics are modelled as error
  results.
- `run_query`, `language_for_id`, `snapshot_settings` and
  `assert_query_snapshot` are left out, because they need tree-sitter, the
  filesystem and snapshot files. So are tests/ruby.rs, the Ruby fixtures and
  the commit-lint configuration.
- src/ruby.rs, src/language_servers.rs and src/language_servers/mod.rs are
  not part of this model: they hold the extension's registration and
  dispatch.
- Sorbet, Kanayago, RuboCop, Standard and standardrb are not part of this
  model. Their files hold only constants and argument lists; each would be a
  `LanguageServer.Tool` value.
- RubyLsp.DefaultUseBundler is modelled as its constant, false. The shared
  resolution logic reads `use_bundler` with a literal default of true and does
  not consult this hook, and the model follows that logic.
- LanguageServer.ProvisionGem and the other gem-home steps surface errors as
  their outermost message, because the source converts them with
  `to_string()`. The underlying executor message is therefore not kept in
  the launch error. The two `?` sites that forward an `anyhow` error as-is
  are modelled the same way.
- Gemset.MergePath appends the bin directory after the existing `PATH`
  without a duplicate check. This is what the code does; a prepend with
  de-duplication is not what it does.
- Bundler.ExecuteBundleCommand: the "Invalid path to Gemfile" error is not
  reachable, because the working directory is a `String` and so always
  text. `Bundler.GemfilePath` proves this.
- Concurrent installs into the same gem home are not modelled: the source
  does no locking.
