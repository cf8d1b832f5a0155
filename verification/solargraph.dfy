/** The Solargraph language server (src/language_servers/solargraph.rs). It
    never installs anything: it runs through the project bundle or from the
    `PATH`, always in stdio mode and without the shell environment. */
module Solargraph {
  import opened Common
  import opened Text
  import opened Labels
  import opened LanguageServer

  const ServerId: string := "solargraph"
  const ExecutableName: string := "solargraph"

  /** `SolargraphBinary`: a path and optional arguments, no environment. */
  datatype SolargraphBinary = SolargraphBinary(path: string, args: Option<seq<string>>)

  /** `language_server_binary`: a configured path wins (with the configured
      arguments); otherwise `bundle exec solargraph stdio` unless
      `use_bundler` is false, in which case `solargraph stdio` from the
      `PATH`. A missing program is an error, never a fallback. */
  function SolargraphBinaryFor(wt: Worktree, serverId: string): (r: Result<SolargraphBinary, string>)
    ensures wt.lspSettings(serverId).Err? ==> r == Err(wt.lspSettings(serverId).error)
    ensures wt.lspSettings(serverId).Ok? && OverridePath(wt.lspSettings(serverId).value).Some? ==>
      var settings := wt.lspSettings(serverId).value;
      r == Ok(SolargraphBinary(OverridePath(settings).value, settings.binary.value.arguments))
    ensures wt.lspSettings(serverId).Ok? && OverridePath(wt.lspSettings(serverId).value).None? ==>
      var useBundler := SettingFlag(wt.lspSettings(serverId).value.settings, "use_bundler", true);
      && (useBundler && wt.which("bundle").Some? ==>
            r == Ok(SolargraphBinary(wt.which("bundle").value, Some(["exec", "solargraph", "stdio"]))))
      && (useBundler && wt.which("bundle").None? ==> r == Err("Unable to find the 'bundle' command."))
      && (!useBundler && wt.which("solargraph").Some? ==>
            r == Ok(SolargraphBinary(wt.which("solargraph").value, Some(["stdio"]))))
      && (!useBundler && wt.which("solargraph").None? ==> r == Err("Unable to find the 'solargraph' command."))
  {
    match wt.lspSettings(serverId)
    case Err(e) => Err(e)
    case Ok(settings) =>
      var args := if settings.binary.Some? then settings.binary.value.arguments else None;
      if OverridePath(settings).Some? then Ok(SolargraphBinary(OverridePath(settings).value, args))
      else if SettingFlag(settings.settings, "use_bundler", true) then
        match wt.which("bundle")
        case Some(path) => Ok(SolargraphBinary(path, Some(["exec", ExecutableName, "stdio"])))
        case None => Err("Unable to find the 'bundle' command.")
      else
        match wt.which(ExecutableName)
        case Some(path) => Ok(SolargraphBinary(path, Some(["stdio"])))
        case None => Err("Unable to find the 'solargraph' command.")
  }

  /** `language_server_command`: the binary's arguments or `stdio`, and an
      empty environment. */
  function SolargraphCommand(wt: Worktree, serverId: string): (r: Result<Command, string>)
    ensures r.Ok? <==> SolargraphBinaryFor(wt, serverId).Ok?
    ensures r.Err? ==> r.error == SolargraphBinaryFor(wt, serverId).error
    ensures r.Ok? ==> r.value.env == Pairs([]) && r.value.command == SolargraphBinaryFor(wt, serverId).value.path
    ensures r.Ok? && SolargraphBinaryFor(wt, serverId).value.args.None? ==> r.value.args == ["stdio"]
  {
    match SolargraphBinaryFor(wt, serverId)
    case Err(e) => Err(e)
    case Ok(b) => Ok(Command(b.path, b.args.GetOr(["stdio"]), Pairs([])))
  }

  /** Unless the user configured arguments, Solargraph is started in stdio
      mode: `stdio` is the last argument. */
  lemma {:induction false} SolargraphRunsStdio(wt: Worktree, serverId: string)
    requires SolargraphCommand(wt, serverId).Ok?
    requires wt.lspSettings(serverId).Ok?
    requires var s := wt.lspSettings(serverId).value; s.binary.None? || s.binary.value.arguments.None?
    ensures var args := SolargraphCommand(wt, serverId).value.args;
      |args| >= 1 && args[|args| - 1] == "stdio"
  {
    var settings := wt.lspSettings(serverId).value;
    var b := SolargraphBinaryFor(wt, serverId).value;
    if OverridePath(settings).Some? {
      assert b.args.None?;
    } else if SettingFlag(settings.settings, "use_bundler", true) {
      assert b.args == Some(["exec", "solargraph", "stdio"]);
    } else {
      assert b.args == Some(["stdio"]);
    }
  }

  // ---------------------------------------------------------------------------
  // Labels

  /** The highlight of a completion item: `None` for kinds that get no label. */
  function CompletionHighlight(kind: CompletionKind, text: string): Option<string> {
    match kind
    case Class => Some("type")
    case Module => Some("type")
    case Constant => Some("constant")
    case Method => Some("function.method")
    case Keyword => if StartsWith(text, ":") then Some("string.special.symbol") else Some("keyword")
    case Variable => if StartsWith(text, "@") then Some("property") else None
    case _ => None
  }

  /** `label_for_completion`: the item's label, highlighted by kind, and its
      detail after a space; filtered on the label alone. */
  function LabelForCompletion(c: Completion): (r: Option<CodeLabel>)
    ensures r.Some? <==> (
      && c.kind.Some?
      && (c.kind.value in {Class, Module, Constant, Method, Keyword}
          || (c.kind.value == Variable && StartsWith(c.labelText, "@"))))
    ensures r.Some? ==> r.value.WellFormed() && r.value.code == "" && r.value.FilterText() == c.labelText
    ensures r.Some? && c.detail.None? ==> r.value.Rendered() == c.labelText
    ensures r.Some? && c.detail.Some? ==> r.value.Rendered() == c.labelText + " " + c.detail.value
    ensures r.Some? ==> |r.value.spans| >= 1 && r.value.spans[0].Literal? && r.value.spans[0].text == c.labelText
    ensures r.Some? && c.kind.value in {Class, Module} ==> r.value.spans[0].highlight == Some("type")
    ensures r.Some? && c.kind.value == Constant ==> r.value.spans[0].highlight == Some("constant")
    ensures r.Some? && c.kind.value == Method ==> r.value.spans[0].highlight == Some("function.method")
    ensures r.Some? && c.kind.value == Keyword && StartsWith(c.labelText, ":") ==>
      r.value.spans[0].highlight == Some("string.special.symbol")
    ensures r.Some? && c.kind.value == Keyword && !StartsWith(c.labelText, ":") ==>
      r.value.spans[0].highlight == Some("keyword")
    ensures r.Some? && c.kind.value == Variable ==> r.value.spans[0].highlight == Some("property")
  {
    if c.kind.None? then None
    else
      match CompletionHighlight(c.kind.value, c.labelText)
      case None => None
      case Some(highlight) => Some(NameLabel(c.labelText, highlight, c.detail))
  }

  /** With one '#', the two parts put back together are the name. */
  lemma TwoPartsRejoin(name: string)
    requires |Split(name, '#')| == 2
    ensures var parts := Split(name, '#'); name == parts[0] + "#" + parts[1]
  {
    var parts := Split(name, '#');
    JoinSplit(name, '#');
    assert parts[1..] == [parts[1]];
  }

  /** The label of `before#after`: the container as a type, the '#', and
      the method name, filtered on the whole name. */
  function SplitMethodLabel(name: string, before: string, after: string): (l: CodeLabel)
    requires name == before + "#" + after
    ensures l.WellFormed() && l.filterStart == 0 && l.filterEnd == |name|
    ensures l.Rendered() == name && l.code == name
    ensures l.spans == [Literal(before, Some("type")), Literal("#", None), Literal(after, Some("function.method"))]
  {
    var spans := [Literal(before, Some("type")), Literal("#", None), Literal(after, Some("function.method"))];
    RenderThreeLiterals(name, spans[0], spans[1], spans[2]);
    CodeLabel(name, spans, 0, |name|)
  }

  /** The '#' of `before#after` sits at `|before|`. */
  lemma HashPosition(name: string, before: string, after: string)
    requires name == before + "#" + after
    ensures var k := |before|; 0 <= k < |name| && name[k] == '#' && name[..k] == before && name[k + 1..] == after
  {
  }

  /** The label of a method symbol `Container#method`: the container as a
      type, the '#', and the method name; no label unless there is exactly
      one '#'. */
  function MethodLabel(name: string): (r: Option<CodeLabel>)
    ensures r.Some? <==> multiset(name)['#'] == 1
    ensures r.Some? ==> r.value.WellFormed() && r.value.filterStart == 0 && r.value.filterEnd == |name|
    ensures r.Some? ==> r.value.Rendered() == name && r.value.code == name
    ensures r.Some? ==>
      exists k :: 0 <= k < |name| && name[k] == '#' && r.value.spans
        == [Literal(name[..k], Some("type")), Literal("#", None), Literal(name[k + 1..], Some("function.method"))]
  {
    SplitCount(name, '#');
    var parts := Split(name, '#');
    if |parts| != 2 then None
    else
      TwoPartsRejoin(name);
      HashPosition(name, parts[0], parts[1]);
      Some(SplitMethodLabel(name, parts[0], parts[1]))
  }

  /** `label_for_symbol`: a method shows `Container#method`; a class or
      module shows its name out of `class <name>`; a constant shows its
      upper-cased name. All are filtered on the name's length. */
  function LabelForSymbol(s: Symbol): (r: Option<CodeLabel>)
    ensures r.Some? <==> (
      || s.kind in {ClassSymbol, ModuleSymbol, ConstantSymbol}
      || (s.kind == MethodSymbol && multiset(s.name)['#'] == 1))
    ensures r.Some? ==> r.value.WellFormed() && r.value.filterStart == 0 && r.value.filterEnd == |s.name|
    ensures r.Some? && s.kind != ConstantSymbol ==> r.value.Rendered() == s.name && r.value.FilterText() == s.name
    ensures r.Some? && s.kind == ConstantSymbol ==> r.value.Rendered() == ToUpper(s.name)
    ensures s.kind == MethodSymbol ==> r == MethodLabel(s.name)
    ensures s.kind in {ClassSymbol, ModuleSymbol} ==>
      r.Some? && r.value.code == "class " + s.name && r.value.spans == [CodeRange(6, 6 + |s.name|)]
    ensures s.kind == ConstantSymbol ==>
      r.Some? && r.value.code == ToUpper(s.name) && r.value.spans == [CodeRange(0, |s.name|)]
  {
    match s.kind
    case MethodSymbol => MethodLabel(s.name)
    case ClassSymbol => Some(SnippetLabel("class " + s.name, 6, s.name))
    case ModuleSymbol => Some(SnippetLabel("class " + s.name, 6, s.name))
    case ConstantSymbol => Some(SnippetLabel(ToUpper(s.name), 0, s.name))
    case OtherSymbol => None
  }
}
