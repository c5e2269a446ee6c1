/** Printing and reading again: for every well-formed tree its text reads back as that tree, and so does every parsed
    document. */
module FlatJsonRoundTrip {
  import opened Options
  import opened FlatJsonLexer
  import opened FlatJsonTree
  import opened FlatJsonPrinter
  import opened FlatJsonContent
  import opened FlatJsonSpelling

  /** The text of every well-formed container reads back as that container, up to its last byte. */
  lemma {:induction false} RenderReadsBack(t: Json<string>)
    requires WellFormed(t)
    ensures ReadsAs(ParseValue(Render(t), 0), Render(t), t, |Render(t)|)
  {
    hide WellFormed, WellSpelled, Render, Spell, Erase, ParseValue;
    TightIsRender(t);
    DocumentReads("", Tight(t), "");
    assert "" + Render(t) + "" == Render(t);
  }

  /** Parsing a container, printing its tokens and parsing that text gives the same tokens: types, bytes
      of keys and values, parent and end links and child counts. */
  lemma {:induction false} RoundTrip(text: string)
    requires ParseValue(text, 0).Good? && ParseValue(text, 0).value.Node?
    ensures var tokens := Flatten(ParseValue(text, 0).value, None, 0, Nowhere);
      && Printable(Views(text, tokens))
      && var printed := Print(Views(text, tokens), 0, |tokens|);
      var again := ParseValue(printed, 0);
      && again.Good? && again.next == |printed|
      && Views(printed, Flatten(again.value, None, 0, Nowhere)) == Views(text, tokens)
      && (Fits(ParseValue(text, 0).value) <==> Fits(again.value))
  {
    hide ParseValue, Flatten, Views, Print, Render, Content, WellFormed, Fits, InText, WellKeyed, Printable;
    var t := ParseValue(text, 0).value;
    var doc := Content(text, t);
    ParsedIsWellFormed(text, 0);
    WellFormedIsWellKeyed(doc);
    ViewsOfFlatten(text, t, None, 0, Nowhere);
    ContentOfNode(text, t);
    PrintIsRender(doc);
    RenderReadsBack(doc);
    var printed := Render(doc);
    var t' := ParseValue(printed, 0).value;
    ViewsOfFlatten(printed, t', None, 0, Nowhere);
    ParsedIsWellFormed(printed, 0);
    FitsByContent(text, t, printed, t');
  }

  lemma {:induction false} ContentOfNode(text: string, t: Json<Span>)
    requires t.Node?
    ensures Content(text, t).Node?
  {
  }
}
