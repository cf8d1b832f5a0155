/** The labels of the Ruby LSP server (src/language_servers/ruby_lsp.rs),
    and its launch identity. Ruby LSP is launched by the shared logic
    (see `LanguageServer.LanguageServerCommand`). */
module RubyLsp {
  import opened Common
  import opened Text
  import opened Labels
  import opened LanguageServer
  import Solargraph

  /** Ruby LSP's identity: server id, executable and gem, no arguments. */
  const RubyLspTool: Tool := Tool("ruby-lsp", "ruby-lsp", "ruby-lsp", [])

  /** `default_use_bundler`: Ruby LSP asks not to go through the bundle by
      default. The shared launch logic reads `use_bundler` with a default of
      true and does not consult this hook. */
  const DefaultUseBundler: bool := false

  /** The highlight of a completion item: `None` for kinds that get no label. */
  function CompletionHighlight(kind: CompletionKind): Option<string> {
    match kind
    case Class => Some("type")
    case Module => Some("type")
    case Constant => Some("constant")
    case Method => Some("function.method")
    case Reference => Some("function.method")
    case Keyword => Some("keyword")
    case _ => None
  }

  /** The detail shown after a completion's label. */
  function LabelDetail(c: Completion): Option<string> {
    if c.labelDetails.Some? then c.labelDetails.value.detail else None
  }

  /** `label_for_completion`: the label highlighted by kind, then the
      label details' detail (never the item's own `detail`) after a space;
      filtered on the label. */
  function LabelForCompletion(c: Completion): (r: Option<CodeLabel>)
    ensures r.Some? <==> c.kind.Some? && c.kind.value in {Class, Module, Constant, Method, Reference, Keyword}
    ensures r.Some? ==> r.value.WellFormed() && r.value.code == "" && r.value.FilterText() == c.labelText
    ensures r.Some? && (c.labelDetails.None? || c.labelDetails.value.detail.None?) ==>
      r.value.Rendered() == c.labelText
    ensures r.Some? && c.labelDetails.Some? && c.labelDetails.value.detail.Some? ==>
      r.value.Rendered() == c.labelText + " " + c.labelDetails.value.detail.value
    ensures r.Some? ==> |r.value.spans| >= 1 && r.value.spans[0].Literal? && r.value.spans[0].text == c.labelText
    ensures r.Some? && c.kind.value in {Class, Module} ==> r.value.spans[0].highlight == Some("type")
    ensures r.Some? && c.kind.value == Constant ==> r.value.spans[0].highlight == Some("constant")
    ensures r.Some? && c.kind.value in {Method, Reference} ==> r.value.spans[0].highlight == Some("function.method")
    ensures r.Some? && c.kind.value == Keyword ==> r.value.spans[0].highlight == Some("keyword")
  {
    if c.kind.None? then None
    else
      match CompletionHighlight(c.kind.value)
      case None => None
      case Some(highlight) => Some(NameLabel(c.labelText, highlight, LabelDetail(c)))
  }

  /** `label_for_symbol`: the name as it appears in a Ruby snippet — after
      `def ` for a method, after `class ` for a class or module — or the
      upper-cased name for a constant; filtered on the name's length. */
  function LabelForSymbol(s: Symbol): (r: Option<CodeLabel>)
    ensures r.Some? <==> s.kind in {MethodSymbol, ClassSymbol, ModuleSymbol, ConstantSymbol}
    ensures r.Some? ==> r.value.WellFormed() && r.value.filterStart == 0 && r.value.filterEnd == |s.name|
    ensures r.Some? && s.kind != ConstantSymbol ==> r.value.Rendered() == s.name && r.value.FilterText() == s.name
    ensures r.Some? && s.kind == MethodSymbol ==> r.value.code == "def " + s.name + "; end"
    ensures r.Some? && s.kind in {ClassSymbol, ModuleSymbol} ==> r.value.code == "class " + s.name + "; end"
    ensures r.Some? && s.kind == ConstantSymbol ==> r.value.Rendered() == ToUpper(s.name)
  {
    match s.kind
    case MethodSymbol =>
      var code := "def " + s.name + "; end";
      assert code[4..4 + |s.name|] == s.name;
      Some(SnippetLabel(code, 4, s.name))
    case ClassSymbol =>
      var code := "class " + s.name + "; end";
      assert code[6..6 + |s.name|] == s.name;
      Some(SnippetLabel(code, 6, s.name))
    case ModuleSymbol =>
      var code := "class " + s.name + "; end";
      assert code[6..6 + |s.name|] == s.name;
      Some(SnippetLabel(code, 6, s.name))
    case ConstantSymbol =>
      var code := ToUpper(s.name);
      assert code[0..|s.name|] == code;
      Some(SnippetLabel(code, 0, s.name))
    case OtherSymbol => None
  }

  /** Where both servers give a completion a label — classes, modules,
      constants and methods — the labels agree, once Solargraph's detail is
      the one Ruby LSP reads from the label details. */
  lemma {:induction false} CompletionLabelsAgree(c: Completion)
    requires c.kind.Some? && c.kind.value in {Class, Module, Constant, Method}
    requires c.detail == LabelDetail(c)
    ensures LabelForCompletion(c) == Solargraph.LabelForCompletion(c)
  {
    assert CompletionHighlight(c.kind.value) == Solargraph.CompletionHighlight(c.kind.value, c.labelText);
  }

  /** Both servers show a class or module symbol as its name, filtered on
      the whole name, from a snippet that begins `class `. */
  lemma {:induction false} ClassLabelsShowName(s: Symbol)
    requires s.kind in {ClassSymbol, ModuleSymbol}
    ensures LabelForSymbol(s).Some? && Solargraph.LabelForSymbol(s).Some?
    ensures LabelForSymbol(s).value.Rendered() == Solargraph.LabelForSymbol(s).value.Rendered() == s.name
    ensures LabelForSymbol(s).value.FilterText() == Solargraph.LabelForSymbol(s).value.FilterText() == s.name
    ensures StartsWith(LabelForSymbol(s).value.code, "class ") && StartsWith(Solargraph.LabelForSymbol(s).value.code, "class ")
  {
    var mine := LabelForSymbol(s).value;
    var theirs := Solargraph.LabelForSymbol(s).value;
    assert mine.code[..6] == "class ";
    assert theirs.code == "class " + s.name;
    assert theirs.code[..6] == "class ";
  }
}
