/** The editor's completion items, symbols and code labels, as the Ruby
    language servers' label hooks see them. A label is displayed as the
    concatenation of its spans: a literal span shows its own text, a code
    range shows a slice of the label's `code`. The filter range selects the
    part of the displayed text that typed input is matched against. */
module Labels {
  import opened Common

  /** The kinds of completion item the label hooks distinguish; every other
      kind is `OtherCompletion`. */
  datatype CompletionKind =
    | Method | Function | Field | Variable | Class | Module | Constant | Keyword | Reference | Property
    | OtherCompletion

  datatype LabelDetails = LabelDetails(detail: Option<string>, description: Option<string>)

  datatype Completion = Completion(
    labelText: string,
    kind: Option<CompletionKind>,
    detail: Option<string>,
    labelDetails: Option<LabelDetails>)

  /** The kinds of document symbol the label hooks distinguish; every other
      kind is `OtherSymbol`. */
  datatype SymbolKind = MethodSymbol | ClassSymbol | ModuleSymbol | ConstantSymbol | OtherSymbol

  datatype Symbol = Symbol(name: string, kind: SymbolKind)

  /** `CodeLabelSpan`: literal text with an optional highlight name, or a
      range of the label's code. */
  datatype Span = Literal(text: string, highlight: Option<string>) | CodeRange(start: nat, end: nat)

  /** `CodeLabel`, its filter range as two offsets. */
  datatype CodeLabel = CodeLabel(code: string, spans: seq<Span>, filterStart: nat, filterEnd: nat) {

    /** Every code range lies inside the code. */
    predicate SpansInCode() {
      forall i :: 0 <= i < |spans| ==> SpanInCode(code, spans[i])
    }

    /** The text the editor displays. */
    function Rendered(): string
      requires SpansInCode()
    {
      RenderSpans(code, spans)
    }

    /** Spans in range and the filter range inside the displayed text. */
    predicate WellFormed() {
      SpansInCode() && filterStart <= filterEnd <= |Rendered()|
    }

    /** The part of the displayed text that input is matched against. */
    function FilterText(): string
      requires WellFormed()
    {
      Rendered()[filterStart..filterEnd]
    }
  }

  predicate SpanInCode(code: string, span: Span) {
    span.CodeRange? ==> span.start <= span.end <= |code|
  }

  /** What one span displays. */
  function SpanText(code: string, span: Span): string
    requires SpanInCode(code, span)
  {
    match span
    case Literal(t, _) => t
    case CodeRange(s, e) => code[s..e]
  }

  function RenderSpans(code: string, spans: seq<Span>): string
    requires forall i :: 0 <= i < |spans| ==> SpanInCode(code, spans[i])
  {
    if |spans| == 0 then "" else SpanText(code, spans[0]) + RenderSpans(code, spans[1..])
  }

  /** Displaying a span followed by more spans. */
  lemma RenderSpansCons(code: string, span: Span, rest: seq<Span>)
    requires SpanInCode(code, span)
    requires forall i :: 0 <= i < |rest| ==> SpanInCode(code, rest[i])
    ensures RenderSpans(code, [span] + rest) == SpanText(code, span) + RenderSpans(code, rest)
  {
    assert ([span] + rest)[0] == span;
    assert ([span] + rest)[1..] == rest;
  }

  /** Three literal spans display their texts one after another. */
  lemma RenderThreeLiterals(code: string, x: Span, y: Span, z: Span)
    requires x.Literal? && y.Literal? && z.Literal?
    ensures RenderSpans(code, [x, y, z]) == x.text + y.text + z.text
  {
    RenderSpansCons(code, z, []);
    RenderSpansCons(code, y, [z]);
    RenderSpansCons(code, x, [y, z]);
    assert [x, y, z] == [x] + [y, z];
    assert [y, z] == [y] + [z];
    assert [z] == [z] + [];
  }

  /** A detail after a separating space, as unhighlighted literals. */
  function DetailSpans(detail: Option<string>): (t: seq<Span>)
    ensures forall i :: 0 <= i < |t| ==> t[i].Literal?
    ensures detail.None? ==> RenderSpans("", t) == ""
    ensures detail.Some? ==> RenderSpans("", t) == " " + detail.value
  {
    match detail
    case None => []
    case Some(d) =>
      RenderSpansCons("", Literal(d, None), []);
      RenderSpansCons("", Literal(" ", None), [Literal(d, None)]);
      [Literal(" ", None), Literal(d, None)]
  }

  /** A label that shows a name (with an optional detail after a space) as
      literal text, highlighted as `highlight`, filtered on the name. */
  function NameLabel(name: string, highlight: string, detail: Option<string>): (l: CodeLabel)
    ensures l.WellFormed()
    ensures l.FilterText() == name
    ensures detail.None? ==> l.Rendered() == name
    ensures detail.Some? ==> l.Rendered() == name + " " + detail.value
    ensures |l.spans| >= 1 && l.spans[0] == Literal(name, Some(highlight))
  {
    var head := Literal(name, Some(highlight));
    var tail := DetailSpans(detail);
    RenderSpansCons("", head, tail);
    var l := CodeLabel("", [head] + tail, 0, |name|);
    assert l.Rendered()[..|name|] == name;
    l
  }

  /** A label that shows the slice `code[start..start + |name|]`, filtered
      on its first `|name|` characters. */
  function SnippetLabel(code: string, start: nat, name: string): (l: CodeLabel)
    requires start + |name| <= |code|
    ensures l.WellFormed()
    ensures l.Rendered() == code[start..start + |name|]
    ensures l.FilterText() == code[start..start + |name|]
  {
    var l := CodeLabel(code, [CodeRange(start, start + |name|)], 0, |name|);
    RenderSpansCons(code, CodeRange(start, start + |name|), []);
    assert [CodeRange(start, start + |name|)] + [] == l.spans;
    assert code[start..start + |name|] + "" == code[start..start + |name|];
    l
  }
}
