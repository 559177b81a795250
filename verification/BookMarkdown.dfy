// The Markdown rendering of a book's text units, with the offsets that its
// sidecar records.

module BookMarkdown {
  import opened Common
  import opened XmlText
  import opened XmlUnitText

  datatype TextUnit = TextUnit(heading: bool, text: string)

  datatype UnitSpan = UnitSpan(ordinal: nat, heading: bool, start: nat, end: nat)

  function Prefix(u: TextUnit): string {
    if u.heading then "## " else ""
  }

  function Title(r: TextRules, sourceName: string): string {
    "# " + Join(" ", Fields(r.isSpace, sourceName)) + "\n\n"
  }

  function Chunk(u: TextUnit): (s: string)
    ensures |s| == |Prefix(u)| + |u.text| + 2
  {
    Prefix(u) + u.text + "\n\n"
  }

  function Rendered(r: TextRules, sourceName: string, units: seq<TextUnit>): string {
    if units == [] then Title(r, sourceName)
    else Rendered(r, sourceName, units[..|units| - 1]) + Chunk(units[|units| - 1])
  }

  // The unit's text stands at its span.
  predicate At(markdown: string, u: TextUnit, s: UnitSpan) {
    s.heading == u.heading && s.start <= s.end <= |markdown| && markdown[s.start..s.end] == u.text
  }

  // Every unit's text is found at the offsets recorded for it; between two units
  // lie two line feeds and the prefix of the second.
  predicate Recorded(markdown: string, units: seq<TextUnit>, spans: seq<UnitSpan>) {
    |spans| == |units| &&
    (forall i :: 0 <= i < |units| ==> spans[i].ordinal == i && At(markdown, units[i], spans[i])) &&
    (forall i :: 0 < i < |units| ==> spans[i].start == spans[i - 1].end + 2 + |Prefix(units[i])|) &&
    (units != [] ==> spans[|units| - 1].end + 2 == |markdown|)
  }

  lemma AtLonger(markdown: string, more: string, u: TextUnit, s: UnitSpan)
    requires At(markdown, u, s)
    ensures At(markdown + more, u, s)
  {
    assert (markdown + more)[s.start..s.end] == markdown[s.start..s.end];
  }

  lemma RecordedMore(markdown: string, units: seq<TextUnit>, spans: seq<UnitSpan>, u: TextUnit)
    requires Recorded(markdown, units, spans)
    ensures
      var start := |markdown| + |Prefix(u)|;
      Recorded(markdown + Chunk(u), units + [u], spans + [UnitSpan(|units|, u.heading, start, start + |u.text|)])
  {
    var start := |markdown| + |Prefix(u)|;
    var last := UnitSpan(|units|, u.heading, start, start + |u.text|);
    assert At(markdown + Chunk(u), u, last);
    hide At, Chunk;
    forall i | 0 <= i < |units| ensures At(markdown + Chunk(u), units[i], spans[i]) {
      AtLonger(markdown, Chunk(u), units[i], spans[i]);
    }
  }

  method RenderMarkdown(r: TextRules, sourceName: string, units: seq<TextUnit>) returns (markdown: string, spans: seq<UnitSpan>)
    ensures markdown == Rendered(r, sourceName, units) && Recorded(markdown, units, spans)
  {
    hide Recorded, Chunk, Title;
    markdown := Title(r, sourceName);
    var offset := |markdown|;
    spans := [];
    assert Recorded(markdown, [], []) by { NothingRecorded(markdown); }
    for i := 0 to |units|
      invariant markdown == Rendered(r, sourceName, units[..i]) && offset == |markdown|
      invariant Recorded(markdown, units[..i], spans)
    {
      RecordedMore(markdown, units[..i], spans, units[i]);
      assert units[..i + 1] == units[..i] + [units[i]];
      var textStart := offset + |Prefix(units[i])|;
      var textEnd := textStart + |units[i].text|;
      markdown := markdown + Chunk(units[i]);
      offset := textEnd + 2;
      spans := spans + [UnitSpan(i, units[i].heading, textStart, textEnd)];
    }
    assert units[..|units|] == units;
  }

  lemma NothingRecorded(markdown: string)
    ensures Recorded(markdown, [], [])
  {
  }

  // The rendering starts with the source name, its white space collapsed, as the
  // title, and grows by each unit's text behind its heading mark.
  lemma RenderedExactly(r: TextRules, sourceName: string, units: seq<TextUnit>, u: TextUnit)
    requires r.isSpace(' ')
    ensures exists t :: Collapses(r.isSpace, [sourceName], false, t) && Rendered(r, sourceName, []) == "# " + t + "\n\n"
    ensures Rendered(r, sourceName, units + [u]) ==
            Rendered(r, sourceName, units) + (if u.heading then "## " else "") + u.text + "\n\n"
  {
    var t := Join(" ", Fields(r.isSpace, sourceName));
    assert Join(Separator(false), [sourceName]) == sourceName;
    var ps := FieldsPair(r.isSpace, sourceName);
    assert (units + [u])[..|units|] == units;
    hide Join, Fields;
    PairsLink(r.isSpace, [sourceName], false, t, ps);
    assert Collapses(r.isSpace, [sourceName], false, t);
  }
}
