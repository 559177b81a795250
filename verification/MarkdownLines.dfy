// Lines, ATX headings and code fences, as the text parser's own rules read them.

module MarkdownLines {
  import opened Common

  // `start` and `end` delimit the content in the whole text.
  datatype Line = Line(number: nat, start: nat, end: nat, content: string)

  datatype Heading = Heading(level: nat, text: string, start: nat, end: nat)

  datatype Fence = Fence(marker: char, minimum: nat)

  // -------------------------------------------------------------------- lines

  // The line boundaries of str.splitlines().
  predicate Boundary(c: char) {
    c == '\n' || c == '\r' || c == '\U{B}' || c == '\U{C}' || c == '\U{1C}' || c == '\U{1D}' || c == '\U{1E}' ||
    c == '\U{85}' || c == '\U{2028}' || c == '\U{2029}'
  }

  // A line starts at the beginning and after every boundary; a carriage return
  // and the line feed behind it are one boundary.
  predicate LineStart(text: string, p: nat) {
    p < |text| && (p == 0 || (Boundary(text[p - 1]) && !(text[p - 1] == '\r' && text[p] == '\n')))
  }

  // The length of the first line with its boundary.
  function FirstLine(text: string): (n: nat)
    requires text != []
    ensures 0 < n <= |text|
    ensures forall k :: 0 < k < n ==> !LineStart(text, k)
    ensures n < |text| ==> LineStart(text, n)
  {
    if text[0] == '\r' && |text| > 1 && text[1] == '\n' then 2
    else if Boundary(text[0]) || |text| == 1 then 1
    else
      var n := FirstLine(text[1..]);
      assert forall k :: 1 < k <= |text| ==> (LineStart(text, k) <==> LineStart(text[1..], k - 1));
      1 + n
  }

  // text.splitlines(keepends=True)
  function RawLines(text: string): seq<string> {
    if text == [] then [] else [text[..FirstLine(text)]] + RawLines(text[FirstLine(text)..])
  }

  // Nothing, or one line feed, lies between two positions.
  predicate Between(text: string, from: nat, to: nat) {
    from <= to <= |text| && (to == from || (to == from + 1 && text[from] == '\n'))
  }

  // Line `i` is a whole line of the text, apart from a line feed at its end. The
  // last of the lines reaches to `offset`.
  ghost predicate LineFits(text: string, lines: seq<Line>, i: nat, offset: nat)
    requires i < |lines|
  {
    var line := lines[i];
    var next := if i + 1 < |lines| then lines[i + 1].start else offset;
    line.number == i + 1 && line.start <= line.end && Between(text, line.end, next) &&
    line.content == text[line.start..line.end] && '\n' !in line.content && (i == 0 ==> line.start == 0) &&
    LineStart(text, line.start) && forall p :: line.start < p < next ==> !LineStart(text, p)
  }

  ghost predicate TilesUpTo(text: string, lines: seq<Line>, offset: nat) {
    offset <= |text| && (lines == [] ==> offset == 0) && (offset < |text| ==> LineStart(text, offset)) &&
    forall i :: 0 <= i < |lines| ==> LineFits(text, lines, i, offset)
  }

  // The lines tile the text: contents and line feeds, in order, and nothing else.
  ghost predicate Tiles(text: string, lines: seq<Line>) {
    TilesUpTo(text, lines, |text|)
  }

  function ContentOf(raw: string): string {
    if raw != [] && raw[|raw| - 1] == '\n' then raw[..|raw| - 1] else raw
  }

  lemma OnlyFinalFeed(text: string, n: nat)
    requires 0 < n <= |text| && forall k :: 0 < k < n ==> !LineStart(text, k)
    ensures '\n' !in ContentOf(text[..n])
  {
    forall k | 0 <= k < n - 1 ensures text[k] != '\n' { assert !LineStart(text, k + 1); }
  }

  // The length of the line that starts at a position, and the line itself.
  function Length(text: string, offset: nat): (n: nat)
    requires offset < |text|
    ensures 0 < n && offset + n <= |text|
  {
    FirstLine(text[offset..])
  }

  function LineAt(text: string, offset: nat, number: nat): Line
    requires offset < |text|
  {
    var content := ContentOf(text[offset..offset + Length(text, offset)]);
    Line(number, offset, offset + |content|, content)
  }

  // The lines from a position on.
  ghost function LinesFrom(text: string, offset: nat, number: nat): seq<Line>
    requires offset <= |text|
    decreases |text| - offset
  {
    if offset == |text| then []
    else [LineAt(text, offset, number)] + LinesFrom(text, offset + Length(text, offset), number + 1)
  }

  lemma LinesFromStep(text: string, offset: nat, number: nat)
    requires offset <= |text|
    ensures offset == |text| ==> LinesFrom(text, offset, number) == []
    ensures
      offset < |text| ==>
        LinesFrom(text, offset, number) ==
        [LineAt(text, offset, number)] + LinesFrom(text, offset + Length(text, offset), number + 1)
  {
    hide LineAt, Length;
  }

  ghost function LinesOf(text: string): seq<Line> {
    LinesFrom(text, 0, 1)
  }

  // Where the next line lies, in the whole text, and what it holds.
  lemma LineEnds(text: string, offset: nat)
    requires offset < |text| && (offset == 0 || LineStart(text, offset))
    ensures LineStart(text, offset)
    ensures
      var n := Length(text, offset);
      (offset + n < |text| ==> LineStart(text, offset + n)) &&
      forall p :: offset < p < offset + n ==> !LineStart(text, p)
  {
    var rest := text[offset..];
    var n := Length(text, offset);
    forall k | 0 < k < |rest| ensures LineStart(rest, k) <==> LineStart(text, offset + k) {}
    forall p | offset < p < offset + n ensures !LineStart(text, p) { assert !LineStart(rest, p - offset); }
  }

  lemma LineAtIs(text: string, offset: nat, number: nat)
    requires offset < |text|
    ensures
      var line := LineAt(text, offset, number);
      '\n' !in line.content && line.end <= |text| && line.content == text[line.start..line.end] &&
      Between(text, line.end, offset + Length(text, offset))
  {
    var n := Length(text, offset);
    OnlyFinalFeed(text[offset..], n);
    hide FirstLine, LineStart;
    var raw := text[offset..offset + n];
    assert text[offset..][..n] == raw;
    if raw[n - 1] == '\n' { assert raw[..n - 1] == text[offset..offset + n - 1]; }
  }

  lemma NextLineFits(text: string, lines: seq<Line>, offset: nat)
    requires TilesUpTo(text, lines, offset) && offset < |text|
    ensures TilesUpTo(text, lines + [LineAt(text, offset, |lines| + 1)], offset + Length(text, offset))
  {
    LineEnds(text, offset);
    LineAtIs(text, offset, |lines| + 1);
    hide LineStart, ContentOf;
    var more := lines + [LineAt(text, offset, |lines| + 1)];
    var upTo := offset + Length(text, offset);
    hide Length;
    forall i | 0 <= i < |more| ensures LineFits(text, more, i, upTo) {
      if i < |lines| {
        assert LineFits(text, lines, i, offset);
        assert more[i] == lines[i];
      } else if lines != [] {
        assert LineFits(text, lines, |lines| - 1, offset);
      }
    }
  }

  // What was read so far, and what is left, make up all the lines.
  ghost predicate ReadUpTo(text: string, records: seq<Line>, offset: nat) {
    var all := LinesOf(text);
    offset <= |text| && |records| <= |all| && all[..|records|] == records &&
    all[|records|..] == LinesFrom(text, offset, |records| + 1)
  }

  lemma Peel<T>(all: seq<T>, i: nat, x: T, rest: seq<T>)
    requires i <= |all| && all[i..] == [x] + rest
    ensures i < |all| && all[..i + 1] == all[..i] + [x] && all[i + 1..] == rest
  {
    assert all[i..][0] == x && all[i..][1..] == rest;
  }

  lemma ReadOn(text: string, records: seq<Line>, offset: nat)
    requires ReadUpTo(text, records, offset) && offset < |text|
    ensures ReadUpTo(text, records + [LineAt(text, offset, |records| + 1)], offset + Length(text, offset))
  {
    LinesFromStep(text, offset, |records| + 1);
    hide LinesFrom, LineAt, Length, LinesOf;
    var next, upTo := LineAt(text, offset, |records| + 1), offset + Length(text, offset);
    Peel(LinesOf(text), |records|, next, LinesFrom(text, upTo, |records| + 2));
    assert |records + [next]| == |records| + 1;
  }

  lemma ReadAll(text: string, records: seq<Line>, offset: nat)
    requires ReadUpTo(text, records, offset) && offset == |text|
    ensures records == LinesOf(text)
  {
    hide LinesOf;
    var all := LinesOf(text);
    assert all == all[..|records|] + all[|records|..];
  }

  lemma ReadNothing(text: string)
    ensures ReadUpTo(text, [], 0) && TilesUpTo(text, [], 0)
  {
    hide LinesFrom;
    assert LinesFrom(text, 0, 1)[0..] == LinesFrom(text, 0, 1);
  }

  lemma AllTiled(text: string, lines: seq<Line>)
    requires TilesUpTo(text, lines, |text|)
    ensures Tiles(text, lines)
  {
    hide TilesUpTo;
  }

  lemma {:induction false} LinesTile(text: string, lines: seq<Line>, offset: nat)
    requires ReadUpTo(text, lines, offset) && TilesUpTo(text, lines, offset) && offset <= |text|
    ensures Tiles(text, LinesOf(text))
    decreases |text| - offset
  {
    hide *;
    if offset == |text| {
      ReadAll(text, lines, offset);
      AllTiled(text, lines);
    } else {
      NextLineFits(text, lines, offset);
      ReadOn(text, lines, offset);
      LinesTile(text, lines + [LineAt(text, offset, |lines| + 1)], offset + Length(text, offset));
    }
  }

  // The lines of a text tile it.
  lemma LinesOfTile(text: string)
    ensures Tiles(text, LinesOf(text))
  {
    ReadNothing(text);
    LinesTile(text, [], 0);
  }

  ghost predicate RawsFrom(text: string, raws: seq<string>, i: nat, offset: nat) {
    i <= |raws| && offset <= |text| && RawLines(text[offset..]) == raws[i..]
  }

  lemma RawAt(text: string, raws: seq<string>, i: nat, offset: nat)
    requires RawsFrom(text, raws, i, offset) && i < |raws|
    ensures offset < |text| && raws[i] == text[offset..offset + Length(text, offset)]
    ensures RawsFrom(text, raws, i + 1, offset + Length(text, offset))
  {
    assert RawLines(text[offset..]) != [];
    var n := Length(text, offset);
    assert text[offset..][n..] == text[offset + n..];
    assert text[offset..][..n] == text[offset..offset + n];
    Peel(raws, i, text[offset..offset + n], RawLines(text[offset + n..]));
    assert raws[i] == raws[..i + 1][i];
  }

  lemma RawsEnd(text: string, raws: seq<string>, offset: nat)
    requires RawsFrom(text, raws, |raws|, offset)
    ensures offset == |text|
  {
    assert RawLines(text[offset..]) == [];
  }

  lemma LineAtContent(text: string, offset: nat, number: nat)
    requires offset < |text|
    ensures
      var n := Length(text, offset);
      var content := ContentOf(text[offset..offset + n]);
      LineAt(text, offset, number) == Line(number, offset, offset + |content|, content) && |text[offset..offset + n]| == n
  {
  }

  method Lines(text: string) returns (records: seq<Line>)
    ensures records == LinesOf(text)
  {
    var raws := RawLines(text);
    assert text[0..] == text && RawsFrom(text, raws, 0, 0);
    ReadNothing(text);
    hide *;
    var offset: nat := 0;
    records := [];
    for i := 0 to |raws|
      invariant |records| == i && RawsFrom(text, raws, i, offset) && ReadUpTo(text, records, offset)
    {
      RawAt(text, raws, i, offset);
      LineAtContent(text, offset, i + 1);
      ReadOn(text, records, offset);
      var content := ContentOf(raws[i]);
      records := records + [Line(i + 1, offset, offset + |content|, content)];
      offset := offset + |raws[i]|;
    }
    RawsEnd(text, raws, offset);
    ReadAll(text, records, offset);
  }

  // Lines start exactly at the beginning and after the boundaries.
  lemma LinesStartExactly(text: string, lines: seq<Line>, p: nat)
    requires Tiles(text, lines)
    ensures LineStart(text, p) <==> exists i :: 0 <= i < |lines| && lines[i].start == p
  {
    hide LineStart;
    forall i | 0 <= i < |lines| ensures LineStart(text, lines[i].start) { assert LineFits(text, lines, i, |text|); }
    if LineStart(text, p) {
      StartWithin(text, p);
      var i := LineOf(text, lines, p, |lines|);
      assert LineFits(text, lines, i, |text|);
    }
  }

  lemma StartWithin(text: string, p: nat)
    requires LineStart(text, p)
    ensures p < |text|
  {
  }

  // Every position belongs to one line, counting the line feed at its end.
  lemma {:induction false} LineOf(text: string, lines: seq<Line>, p: nat, n: nat) returns (i: nat)
    requires Tiles(text, lines) && n <= |lines|
    requires p < |text| && (n < |lines| ==> p < lines[n].start)
    ensures i < n && lines[i].start <= p < (if i + 1 < |lines| then lines[i + 1].start else |text|)
  {
    hide LineStart;
    assert lines != [] ==> LineFits(text, lines, 0, |text|);
    assert n > 0;
    if lines[n - 1].start <= p {
      i := n - 1;
    } else {
      i := LineOf(text, lines, p, n - 1);
    }
  }

  // ------------------------------------------------------------------ scanning

  function Run(p: char -> bool, s: string): (n: nat)
    ensures n <= |s| && (n < |s| ==> !p(s[n]))
    ensures forall c :: c in s[..n] ==> p(c)
  {
    if s == [] || !p(s[0]) then 0
    else
      var n := Run(p, s[1..]);
      assert s[..1 + n] == [s[0]] + s[1..][..n];
      1 + n
  }

  // Where the longest suffix of such characters begins.
  function RunBack(p: char -> bool, s: string): (n: nat)
    ensures n <= |s| && (n > 0 ==> !p(s[n - 1]))
    ensures forall c :: c in s[n..] ==> p(c)
  {
    if s == [] || !p(s[|s| - 1]) then |s|
    else
      var n := RunBack(p, s[..|s| - 1]);
      assert s[n..] == s[..|s| - 1][n..] + [s[|s| - 1]];
      n
  }

  predicate Space(c: char) { c == ' ' }

  predicate Hash(c: char) { c == '#' }

  predicate Pad(c: char) { c == ' ' || c == '\t' }

  // ------------------------------------------------------------------ headings

  function Indent(s: string): nat { Run(Space, s) }

  function Marks(s: string): (n: nat)
    ensures Indent(s) + n <= |s|
  {
    Run(Hash, s[Indent(s)..])
  }

  // The first character behind the marks and the blanks after them.
  function BodyStart(s: string): (n: nat)
    ensures Indent(s) + Marks(s) <= n <= |s| && (n < |s| ==> !Pad(s[n]))
  {
    var marked := Indent(s) + Marks(s);
    marked + Run(Pad, s[marked..])
  }

  // The body without closing marks, which count only behind blanks.
  function Cut(body: string): (end: nat)
    ensures end <= |body|
  {
    var marks := RunBack(Hash, body);
    var blanks := RunBack(Pad, body[..marks]);
    if marks < |body| && blanks < marks then blanks else |body|
  }

  function TextEnd(s: string): (end: nat)
    ensures end <= |s|
  {
    var trimmed := RunBack(Pad, s);
    if trimmed <= BodyStart(s) then trimmed else BodyStart(s) + Cut(s[BodyStart(s)..trimmed])
  }

  function ParseAtxHeading(isSpace: char -> bool, line: Line): Option<Heading> {
    var s := line.content;
    var start, end := BodyStart(s), TextEnd(s);
    if Indent(s) > 3 || Marks(s) < 1 || Marks(s) > 6 || start == Indent(s) + Marks(s) then None
    else if end <= start then None
    else if Blank(isSpace, s[start..end]) then None
    else Some(Heading(Marks(s), s[start..end], line.start + start, line.start + end))
  }

  // The heading's text is the part of the line at its span.
  lemma HeadingInLine(isSpace: char -> bool, line: Line)
    requires ParseAtxHeading(isSpace, line).Some?
    ensures
      var h := ParseAtxHeading(isSpace, line).value;
      line.start <= h.start < h.end <= line.start + |line.content| && !Blank(isSpace, h.text) &&
      h.text == line.content[h.start - line.start..h.end - line.start]
  {
    hide Blank, BodyStart, TextEnd, Marks, Indent;
  }

  predicate All(p: char -> bool, s: string) {
    forall c :: c in s ==> p(c)
  }

  // The text ends in marks set off by blanks.
  predicate EndsInMarks(text: string) {
    var m := RunBack(Hash, text);
    0 < m < |text| && Pad(text[m - 1])
  }

  // A heading line is up to three spaces, one to six marks, blanks, the text, and
  // behind it at most one run of closing marks set off by blanks, and blanks. The
  // text starts and ends with no blank, and keeps closing marks only behind others.
  lemma HeadingTextIsExact(isSpace: char -> bool, line: Line)
    returns (indent: string, opening: string, pads: string, blanks: string, marks: string, trailing: string)
    requires ParseAtxHeading(isSpace, line).Some?
    ensures
      var h := ParseAtxHeading(isSpace, line).value;
      line.content == (indent + opening + pads) + (h.text + (blanks + marks)) + trailing &&
      h.start == line.start + |indent + opening + pads| && h.end == h.start + |h.text| &&
      h.text != "" && !Pad(h.text[0]) && !Pad(h.text[|h.text| - 1]) && !Blank(isSpace, h.text) &&
      (marks == "" ==> !EndsInMarks(h.text))
    ensures All(Space, indent) && |indent| <= 3 && All(Hash, opening) && All(Pad, pads) && pads != ""
    ensures 1 <= |opening| <= 6 && ParseAtxHeading(isSpace, line).value.level == |opening|
    ensures All(Pad, blanks) && All(Hash, marks) && All(Pad, trailing) && (marks != "" ==> blanks != "")
  {
    var s := line.content;
    var start, end, trimmed := BodyStart(s), TextEnd(s), RunBack(Pad, s);
    hide Indent, Marks, BodyStart, TextEnd, RunBack, EndsInMarks, All, Blank, Cut;
    EndOfText(s, start, trimmed);
    indent, opening, pads := Front(s);
    Inside(s, start, end, trimmed);
    var body := s[start..trimmed];
    blanks, marks := CutParts(body);
    trailing := s[trimmed..];
    assert body == body[..end - start] + (blanks + marks);
  }

  lemma Inside(s: string, start: nat, end: nat, trimmed: nat)
    requires start < end <= trimmed <= |s|
    ensures
      var body := s[start..trimmed];
      s == s[..start] + body + s[trimmed..] && body[..end - start] == s[start..end] &&
      body[0] == s[start] && body[|body| - 1] == s[trimmed - 1] && body == body[..end - start] + body[end - start..]
  {
  }

  lemma Front(s: string) returns (indent: string, opening: string, pads: string)
    ensures |indent| == Indent(s) && |opening| == Marks(s) && indent + opening + pads == s[..BodyStart(s)]
    ensures All(Space, indent) && All(Hash, opening) && All(Pad, pads)
  {
    var i, m, start := Indent(s), Marks(s), BodyStart(s);
    indent, opening, pads := s[..i], s[i..][..m], s[i + m..][..start - i - m];
    hide Run, Indent, Marks, BodyStart, Space, Hash, Pad;
    assert s[..start] == indent + opening + pads;
  }

  lemma CutParts(body: string) returns (blanks: string, marks: string)
    requires body != "" && !Pad(body[0]) && !Pad(body[|body| - 1])
    ensures Cut(body) > 0 && body[Cut(body)..] == blanks + marks && !Pad(body[Cut(body) - 1])
    ensures marks == "" ==> !EndsInMarks(body[..Cut(body)])
    ensures All(Pad, blanks) && All(Hash, marks) && (marks != "" ==> blanks != "")
  {
    var m := RunBack(Hash, body);
    var b := RunBack(Pad, body[..m]);
    hide RunBack;
    if m < |body| && b < m {
      blanks, marks := body[..m][b..], body[m..];
      NotAllPad(body, m, b);
      assert body[b - 1] == body[..m][b - 1];
    } else {
      blanks, marks := "", "";
      assert body[..|body|] == body;
      if 0 < m < |body| { assert body[m - 1] == body[..m][m - 1]; }
    }
  }

  lemma EndOfText(s: string, start: nat, trimmed: nat)
    requires start == BodyStart(s) && trimmed == RunBack(Pad, s) && start < TextEnd(s)
    ensures start < trimmed <= |s| && TextEnd(s) == start + Cut(s[start..trimmed])
    ensures !Pad(s[start]) && !Pad(s[trimmed - 1]) && All(Pad, s[trimmed..])
  {
    hide BodyStart, RunBack, Cut, Run, Indent, Marks, Pad;
  }

  lemma NotAllPad(body: string, m: nat, b: nat)
    requires b <= m <= |body| && All(Pad, body[..m][b..]) && body != "" && !Pad(body[0]) && b < m
    ensures b > 0
  {
    assert body[..m][0] == body[0] && body[..m][0..] == body[..m];
  }

  // -------------------------------------------------------------------- fences

  function OpeningFence(s: string): Option<Fence> {
    var indent := Run(Space, s);
    if indent > 3 || indent == |s| then None
    else
      var marker := s[indent];
      var n := Run(c => c == marker, s[indent..]);
      if (marker == '`' || marker == '~') && n >= 3 && '`' !in s[indent + n..] then Some(Fence(marker, n)) else None
  }

  predicate ClosingFence(s: string, opening: Fence) {
    var indent := Run(Space, s);
    var n := Run(c => c == opening.marker, s[indent..]);
    indent <= 3 && n >= opening.minimum && forall c :: c in s[indent + n..] ==> Pad(c)
  }
}
