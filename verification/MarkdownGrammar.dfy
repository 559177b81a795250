// The grammar of heading and fence lines, read off characters: for every line
// whether it is a heading or a fence, and with which parts.

module MarkdownGrammar {
  import opened Common
  import opened MarkdownLines
  import opened HeadingContext
  import opened MarkdownParser

  // ------------------------------------------------------------------- headings

  // A line cut into indent, opening marks, blanks, text, closing blanks and marks,
  // and trailing blanks, each as long as it can be.
  datatype Parts = Parts(
    indent: string, opening: string, pads: string, text: string, blanks: string, marks: string, trailing: string)

  predicate Kinds(p: Parts) {
    (forall c :: c in p.indent ==> c == ' ') &&
    (forall c :: c in p.opening ==> c == '#') &&
    (forall c :: c in p.pads ==> c == ' ' || c == '\t') &&
    (forall c :: c in p.blanks ==> c == ' ' || c == '\t') &&
    (forall c :: c in p.marks ==> c == '#') &&
    (forall c :: c in p.trailing ==> c == ' ' || c == '\t')
  }

  // The text ends in marks that blanks set off from what is before them.
  ghost predicate EndsSetOff(text: string) {
    exists i, j :: SetOffAt(text, i, j)
  }

  predicate SetOffAt(text: string, i: int, j: int) {
    0 < i < j < |text| && (forall k :: i <= k < j ==> text[k] == ' ' || text[k] == '\t') &&
    forall k :: j <= k < |text| ==> text[k] == '#'
  }

  ghost predicate Longest(p: Parts) {
    (p.opening == "" && p.pads != "" ==> p.pads[0] != ' ') &&
    (p.pads == "" && p.text != "" ==> p.text[0] != '#') &&
    (p.text == "" ==> p.blanks == "" && p.marks == "" && p.trailing == "") &&
    (p.text != "" ==> p.text[0] != ' ' && p.text[0] != '\t') &&
    (p.text != "" ==> p.text[|p.text| - 1] != ' ' && p.text[|p.text| - 1] != '\t') &&
    (p.marks == "" <==> p.blanks == "") && (p.marks == "" ==> !EndsSetOff(p.text))
  }

  ghost predicate CutInto(s: string, p: Parts) {
    Kinds(p) && Longest(p) && s == p.indent + p.opening + p.pads + p.text + p.blanks + p.marks + p.trailing
  }

  // ---------------------------------------------------------------- the scanners

  lemma {:induction false} RunIs(p: char -> bool, s: string, n: nat)
    requires n <= |s| && (forall k :: 0 <= k < n ==> p(s[k])) && (n < |s| ==> !p(s[n]))
    ensures Run(p, s) == n
  {
    if n > 0 { RunIs(p, s[1..], n - 1); }
  }

  lemma {:induction false} RunBackIs(p: char -> bool, s: string, n: nat)
    requires n <= |s| && (forall k :: n <= k < |s| ==> p(s[k])) && (n > 0 ==> !p(s[n - 1]))
    ensures RunBack(p, s) == n
  {
    if n < |s| { RunBackIs(p, s[..|s| - 1], n); }
  }

  lemma SplitRun(p: char -> bool, a: string, b: string)
    requires (forall c :: c in a ==> p(c)) && (b != "" ==> !p(b[0]))
    ensures Run(p, a + b) == |a| && (a + b)[|a|..] == b
  {
    var s := a + b;
    forall k | 0 <= k < |a| ensures p(s[k]) { assert s[k] == a[k] && a[k] in a; }
    RunIs(p, s, |a|);
  }

  lemma SplitRunBack(p: char -> bool, a: string, b: string)
    requires (forall c :: c in b ==> p(c)) && (a != "" ==> !p(a[|a| - 1]))
    ensures RunBack(p, a + b) == |a| && (a + b)[..|a|] == a
  {
    var s := a + b;
    forall k | |a| <= k < |s| ensures p(s[k]) { assert s[k] == b[k - |a|] && b[k - |a|] in b; }
    RunBackIs(p, s, |a|);
  }

  function Tail(p: Parts): string {
    p.text + p.blanks + p.marks + p.trailing
  }

  lemma HeadOf(s: string, p: Parts)
    requires CutInto(s, p)
    ensures Indent(s) == |p.indent| && Marks(s) == |p.opening| && BodyStart(s) == |p.indent + p.opening + p.pads|
    ensures s == p.indent + p.opening + p.pads + Tail(p)
  {
    assert s == p.indent + p.opening + p.pads + Tail(p);
    hide Longest, Tail;
    TailStarts(p);
    Scanned(p.indent, p.opening, p.pads, Tail(p));
  }

  lemma Scanned(indent: string, opening: string, pads: string, tail: string)
    requires (forall c :: c in indent ==> Space(c)) && (forall c :: c in opening ==> Hash(c)) && forall c :: c in pads ==> Pad(c)
    requires (tail != "" ==> !Pad(tail[0])) && (pads + tail != "" ==> !Hash((pads + tail)[0]))
    requires opening + pads + tail != "" ==> !Space((opening + pads + tail)[0])
    ensures var s := indent + opening + pads + tail;
            Indent(s) == |indent| && Marks(s) == |opening| && BodyStart(s) == |indent + opening + pads|
  {
    var s, rest := indent + opening + pads + tail, opening + pads + tail;
    assert s == indent + rest && rest == opening + (pads + tail);
    hide Run, Space, Hash, Pad;
    SplitRun(Space, indent, rest);
    SplitRun(Hash, opening, pads + tail);
    SplitRun(Pad, pads, tail);
    assert s[|indent|..] == rest;
    assert Marks(s) == |opening|;
    assert s[|indent| + |opening|..] == rest[|opening|..];
  }

  lemma TailStarts(p: Parts)
    requires Kinds(p) && Longest(p)
    ensures Tail(p) != "" ==> !Pad(Tail(p)[0])
    ensures p.pads + Tail(p) != "" ==> (p.pads + Tail(p))[0] != '#'
    ensures var rest := p.opening + p.pads + Tail(p); rest != "" ==> rest[0] != ' '
  {
    hide EndsSetOff;
    if p.text != "" { assert Tail(p)[0] == p.text[0]; }
    if p.pads != "" { assert p.pads[0] in p.pads && (p.pads + Tail(p))[0] == p.pads[0]; }
    if p.opening != "" { assert p.opening[0] in p.opening; }
  }

  // ------------------------------------------------------------ closing marks

  lemma SetOffExactly(text: string)
    requires text != "" && !Pad(text[0])
    ensures EndsSetOff(text) <==> EndsInMarks(text)
  {
    var m := RunBack(Hash, text);
    if EndsInMarks(text) {
      forall k | m <= k < |text| ensures text[k] == '#' { assert text[k] == text[m..][k - m] && text[m..][k - m] in text[m..]; }
      assert SetOffAt(text, m - 1, m);
    }
    if i, j :| SetOffAt(text, i, j) {
      assert text[j - 1] != '#' by { assert i <= j - 1 < j; }
      RunBackIs(Hash, text, j);
    }
  }

  // The body of a heading, without trailing blanks, is cut before set-off marks.
  lemma CutIs(text: string, blanks: string, marks: string)
    requires text != "" && !Pad(text[0]) && !Pad(text[|text| - 1])
    requires (forall c :: c in blanks ==> Pad(c)) && (forall c :: c in marks ==> Hash(c))
    requires (marks == "" <==> blanks == "") && (marks == "" ==> !EndsSetOff(text))
    ensures Cut(text + blanks + marks) == |text|
  {
    var body := text + blanks + marks;
    hide RunBack, Hash, Pad, EndsSetOff;
    if marks != "" {
      LastOf(text, blanks);
      assert !Hash((text + blanks)[|text + blanks| - 1]) by { PadIsNoHash(blanks); }
      SplitRunBack(Hash, text + blanks, marks);
      SplitRunBack(Pad, text, blanks);
    } else {
      assert body == text;
      SetOffExactly(text);
      UncutIs(text);
    }
  }

  lemma LastOf(text: string, blanks: string)
    requires blanks != ""
    ensures (text + blanks)[|text + blanks| - 1] == blanks[|blanks| - 1] && blanks[|blanks| - 1] in blanks
  {
  }

  lemma PadIsNoHash(blanks: string)
    requires forall c :: c in blanks ==> Pad(c)
    ensures forall c :: c in blanks ==> !Hash(c)
  {
  }

  lemma UncutIs(text: string)
    requires text != "" && !EndsInMarks(text) && !Pad(text[0])
    ensures Cut(text) == |text|
  {
    var m := RunBack(Hash, text);
    if 0 < m < |text| { RunBackIs(Pad, text[..m], m); }
  }

  lemma EndOf(s: string, p: Parts)
    requires CutInto(s, p) && p.text != ""
    ensures TextEnd(s) == |p.indent + p.opening + p.pads| + |p.text|
  {
    var front := p.indent + p.opening + p.pads;
    var body := p.text + p.blanks + p.marks;
    HeadOf(s, p);
    assert s == front + body + p.trailing;
    BodyEnds(p);
    CutIs(p.text, p.blanks, p.marks);
    hide Cut, Pad, BodyStart, CutInto, Longest, Kinds, RunBack, Tail;
    Ended(s, front, body, p.trailing);
  }

  lemma BodyEnds(p: Parts)
    requires Kinds(p) && Longest(p) && p.text != ""
    ensures var body := p.text + p.blanks + p.marks; body != "" && !Pad(body[|body| - 1])
  {
    var body := p.text + p.blanks + p.marks;
    hide EndsSetOff;
    if p.marks != "" {
      assert body[|body| - 1] == p.marks[|p.marks| - 1] && p.marks[|p.marks| - 1] in p.marks;
    } else {
      assert body == p.text;
    }
  }

  lemma Ended(s: string, front: string, body: string, trailing: string)
    requires s == front + body + trailing && body != "" && !Pad(body[|body| - 1]) && forall c :: c in trailing ==> Pad(c)
    requires BodyStart(s) == |front|
    ensures TextEnd(s) == |front| + Cut(body)
  {
    hide RunBack, Pad, BodyStart, Cut;
    SplitRunBack(Pad, front + body, trailing);
    assert s[|front|..|front + body|] == body;
  }

  // ------------------------------------------------------------ the main result

  lemma NoText(s: string, p: Parts)
    requires CutInto(s, p) && p.text == ""
    ensures TextEnd(s) <= BodyStart(s)
  {
    HeadOf(s, p);
  }

  lemma ShownBetween(s: string, p: Parts)
    requires CutInto(s, p)
    ensures s[|p.indent + p.opening + p.pads|..|p.indent + p.opening + p.pads| + |p.text|] == p.text
  {
    hide Kinds, Longest;
    var front := p.indent + p.opening + p.pads;
    assert s == front + p.text + (p.blanks + p.marks + p.trailing);
  }

  lemma Spanned(isSpace: char -> bool, line: Line, p: Parts)
    requires CutInto(line.content, p)
    ensures
      var s := line.content;
      var from := |p.indent| + |p.opening| + |p.pads|;
      Indent(s) == |p.indent| && Marks(s) == |p.opening| && BodyStart(s) == from &&
      (p.text == "" ==> TextEnd(s) <= from) &&
      (p.text != "" ==> TextEnd(s) == from + |p.text| && s[from..TextEnd(s)] == p.text)
  {
    hide *;
    HeadOf(line.content, p);
    ShownBetween(line.content, p);
    if p.text == "" { NoText(line.content, p); } else { EndOf(line.content, p); }
  }

  // A line is a heading exactly when it has at most three spaces, one to six marks,
  // blanks behind them and a text that is not blank; and then these are its parts.
  lemma HeadingDecided(isSpace: char -> bool, line: Line, p: Parts)
    requires CutInto(line.content, p)
    ensures
      var from := line.start + |p.indent| + |p.opening| + |p.pads|;
      ParseAtxHeading(isSpace, line) ==
      if |p.indent| <= 3 && 1 <= |p.opening| <= 6 && p.pads != "" && exists c :: c in p.text && !isSpace(c)
      then Some(Heading(|p.opening|, p.text, from, from + |p.text|))
      else None
  {
    hide *;
    Spanned(isSpace, line, p);
    ParsedAs(isSpace, line);
    ShowsExactly(isSpace, p.text);
    var from := |p.indent| + |p.opening| + |p.pads|;
    assert p.pads != "" <==> from > |p.indent| + |p.opening|;
    if p.text == "" { assert Blank(isSpace, p.text) by { ShowsExactly(isSpace, ""); } }
  }

  lemma ShowsExactly(isSpace: char -> bool, text: string)
    ensures !Blank(isSpace, text) <==> exists c :: c in text && !isSpace(c)
  {
  }

  lemma ParsedAs(isSpace: char -> bool, line: Line)
    ensures
      var s := line.content;
      var start, end := BodyStart(s), TextEnd(s);
      ParseAtxHeading(isSpace, line) ==
      if Indent(s) <= 3 && 1 <= Marks(s) <= 6 && start > Indent(s) + Marks(s) && start < end && !Blank(isSpace, s[start..end])
      then Some(Heading(Marks(s), s[start..end], line.start + start, line.start + end))
      else None
  {
    hide BodyStart, TextEnd, Indent, Marks, Blank;
  }

  // Every line can be cut so.
  lemma PartsExist(s: string) returns (p: Parts)
    ensures CutInto(s, p)
  {
    var start, trimmed := BodyStart(s), RunBack(Pad, s);
    var indent, opening, pads := Front(s);
    assert s[..start] == indent + opening + pads;
    FrontIsLongest(s, indent, opening, pads);
    if trimmed <= start {
      NothingBehind(s);
      hide *;
      p := Parts(indent, opening, pads, "", "", "", "");
      assert CutInto(s, p) by { OnlyFront(s, p); }
    } else {
      var body, trailing := s[start..trimmed], s[trimmed..];
      TrimmedBody(s);
      hide *;
      p := PartsOf(s, indent, opening, pads, body, trailing);
    }
  }

  lemma OnlyFront(s: string, p: Parts)
    requires s == p.indent + p.opening + p.pads && p.text == p.blanks == p.marks == p.trailing == ""
    requires All(Space, p.indent) && All(Hash, p.opening) && All(Pad, p.pads)
    requires p.opening == "" && p.pads != "" ==> p.pads[0] != ' '
    ensures CutInto(s, p)
  {
  }

  lemma PartsOf(s: string, indent: string, opening: string, pads: string, body: string, trailing: string) returns (p: Parts)
    requires s == indent + opening + pads + body + trailing
    requires All(Space, indent) && All(Hash, opening) && All(Pad, pads) && All(Pad, trailing)
    requires opening == "" && pads != "" ==> pads[0] != ' '
    requires body != "" && !Pad(body[0]) && !Pad(body[|body| - 1]) && (pads == "" ==> body[0] != '#')
    ensures CutInto(s, p)
  {
    var blanks, marks := CutParts(body);
    var text := body[..Cut(body)];
    p := Parts(indent, opening, pads, text, blanks, marks, trailing);
    assert text[0] == body[0];
    hide Cut, EndsInMarks, EndsSetOff;
    SetOffExactly(text);
    PartsFit(s, p, body);
  }

  lemma PartsFit(s: string, p: Parts, body: string)
    requires s == p.indent + p.opening + p.pads + body + p.trailing && body == p.text + (p.blanks + p.marks)
    requires Kinds(p) && Longest(p)
    ensures CutInto(s, p)
  {
    hide Kinds, Longest;
  }

  lemma FrontIsLongest(s: string, indent: string, opening: string, pads: string)
    requires |indent| == Indent(s) && |opening| == Marks(s) && indent + opening + pads == s[..BodyStart(s)]
    ensures opening == "" && pads != "" ==> pads[0] != ' '
    ensures pads == "" && BodyStart(s) < |s| ==> s[BodyStart(s)] != '#'
  {
    hide Run;
    if opening == "" && pads != "" { assert pads[0] == s[|indent|]; }
  }

  lemma NothingBehind(s: string)
    requires RunBack(Pad, s) <= BodyStart(s)
    ensures s[..BodyStart(s)] == s
  {
    hide Run, Pad, BodyStart;
    var trimmed := RunBack(Pad, s);
    forall k | trimmed <= k < |s| ensures Pad(s[k]) { assert s[k] == s[trimmed..][k - trimmed]; }
  }

  lemma TrimmedBody(s: string)
    requires BodyStart(s) < RunBack(Pad, s)
    ensures
      var start, trimmed := BodyStart(s), RunBack(Pad, s);
      var body, trailing := s[start..trimmed], s[trimmed..];
      s == s[..start] + body + trailing && body != "" && body[0] == s[start] && !Pad(body[0]) && !Pad(body[|body| - 1]) &&
      All(Pad, trailing)
  {
    hide Run, RunBack, Pad, BodyStart;
    Inside(s, BodyStart(s), BodyStart(s) + 1, RunBack(Pad, s));
  }

  // --------------------------------------------------------------------- fences

  // A fence line: up to three spaces, `n` markers, and what follows them.
  predicate FenceLine(s: string, indent: string, marker: char, n: nat, rest: string) {
    s == indent + seq(n, _ => marker) + rest && |indent| <= 3 && forall c :: c in indent ==> c == ' '
  }

  ghost predicate Opens(s: string, f: Fence) {
    (f.marker == '`' || f.marker == '~') && f.minimum >= 3 &&
    exists indent, rest ::
      FenceLine(s, indent, f.marker, f.minimum, rest) && (rest != "" ==> rest[0] != f.marker) && '`' !in rest
  }

  ghost predicate Closes(s: string, f: Fence) {
    exists indent, n: nat, rest :: n >= f.minimum && ClosingParts(s, indent, f.marker, n, rest)
  }

  predicate ClosingParts(s: string, indent: string, marker: char, n: nat, rest: string) {
    FenceLine(s, indent, marker, n, rest) && forall c :: c in rest ==> c == ' ' || c == '\t'
  }

  lemma FenceScanned(s: string, indent: string, marker: char, n: nat, rest: string)
    requires FenceLine(s, indent, marker, n, rest) && marker != ' ' && n > 0 && (rest != "" ==> rest[0] != marker)
    ensures
      var at := Run(Space, s);
      at == |indent| && at < |s| && s[at] == marker && Run(c => c == marker, s[at..]) == n && s[at + n..] == rest
  {
    var markers := seq(n, _ => marker);
    assert s == indent + (markers + rest);
    assert (markers + rest)[0] == marker;
    assert forall c :: c in indent ==> Space(c);
    hide FenceLine, Run;
    SplitRun(Space, indent, markers + rest);
    SplitRun(c => c == marker, markers, rest);
    assert s[|indent|..] == markers + rest;
    hide Space;
    assert s[|indent| + n..] == (markers + rest)[n..];
  }

  lemma ScannedFence(s: string, marker: char) returns (indent: string, n: nat, rest: string)
    requires Run(Space, s) <= 3
    ensures n == Run(c => c == marker, s[Run(Space, s)..]) && FenceLine(s, indent, marker, n, rest)
    ensures indent == s[..Run(Space, s)] && rest == s[Run(Space, s) + n..] && (rest != "" ==> rest[0] != marker)
  {
    var at := Run(Space, s);
    n := Run(c => c == marker, s[at..]);
    indent, rest := s[..at], s[at + n..];
    hide Run;
    var markers := s[at..][..n];
    forall k | 0 <= k < n ensures markers[k] == marker { assert markers[k] in s[at..][..n]; }
    assert markers == seq(n, _ => marker);
    assert s == indent + markers + rest;
    forall c | c in indent ensures c == ' ' { assert Space(c); }
  }

  // Which lines open a fence, and which fence.
  lemma OpeningExactly(s: string, f: Fence)
    ensures OpeningFence(s) == Some(f) <==> Opens(s, f)
  {
    if Opens(s, f) {
      var indent, rest :|
        FenceLine(s, indent, f.marker, f.minimum, rest) && (rest != "" ==> rest[0] != f.marker) && '`' !in rest;
      FenceScanned(s, indent, f.marker, f.minimum, rest);
      hide Run, FenceLine;
    }
    if OpeningFence(s) == Some(f) {
      hide Run, FenceLine;
      var indent, n, rest := ScannedFence(s, f.marker);
    }
  }

  // Which lines close an open fence.
  lemma ClosingExactly(s: string, f: Fence)
    requires (f.marker == '`' || f.marker == '~') && f.minimum > 0
    ensures ClosingFence(s, f) <==> Closes(s, f)
  {
    hide ClosingParts, ClosingFence;
    if Closes(s, f) {
      var indent, n: nat, rest :| n >= f.minimum && ClosingParts(s, indent, f.marker, n, rest);
      PartsClose(s, f, indent, n, rest);
    }
    if ClosingFence(s, f) {
      var indent, n, rest := ClosedInto(s, f);
    }
  }

  lemma PartsClose(s: string, f: Fence, indent: string, n: nat, rest: string)
    requires (f.marker == '`' || f.marker == '~') && n >= f.minimum > 0 && ClosingParts(s, indent, f.marker, n, rest)
    ensures ClosingFence(s, f)
  {
    assert rest != "" ==> rest[0] != f.marker by { if rest != "" { assert rest[0] in rest; } }
    FenceScanned(s, indent, f.marker, n, rest);
    hide Run, FenceLine;
  }

  lemma ClosedInto(s: string, f: Fence) returns (indent: string, n: nat, rest: string)
    requires ClosingFence(s, f)
    ensures n >= f.minimum && ClosingParts(s, indent, f.marker, n, rest)
  {
    hide Run, FenceLine;
    indent, n, rest := ScannedFence(s, f.marker);
    forall c | c in rest ensures c == ' ' || c == '\t' { assert Pad(c); }
  }

  // The line is no heading and shows something.
  ghost predicate Ordinary(r: TextRules, s: string) {
    (exists c :: c in s && !r.isSpace(c)) && !exists p :: CutInto(s, p) && IsHeading(r, p)
  }

  predicate IsHeading(r: TextRules, p: Parts) {
    |p.indent| <= 3 && 1 <= |p.opening| <= 6 && p.pads != "" && exists c :: c in p.text && !r.isSpace(c)
  }

  lemma HeadingIff(r: TextRules, line: Line)
    ensures ParseAtxHeading(r.isSpace, line).Some? <==> exists p :: CutInto(line.content, p) && IsHeading(r, p)
  {
    hide ParseAtxHeading, CutInto;
    forall p | CutInto(line.content, p) ensures ParseAtxHeading(r.isSpace, line).Some? <==> IsHeading(r, p) {
      HeadingDecided(r.isSpace, line, p);
    }
    var p := PartsExist(line.content);
  }

  lemma OrdinaryExactly(r: TextRules, line: Line)
    ensures ClassIn(r, None, line) == MemberLine <==> Ordinary(r, line.content)
  {
    hide ParseAtxHeading, CutInto, IsHeading;
    HeadingIff(r, line);
    ShowsExactly(r.isSpace, line.content);
  }

  // Line `j` opened the fence, and no line since then closed it.
  ghost predicate OpenSince(r: TextRules, lines: seq<Line>, f: Fence, j: nat, i: nat)
    requires i <= |lines|
  {
    j < i && Ordinary(r, lines[j].content) && Opens(lines[j].content, f) && forall k :: j < k < i ==> !Closes(lines[k].content, f)
  }

  lemma FenceSteps(r: TextRules, lines: seq<Line>, i: nat, f: Fence)
    requires 0 < i <= |lines| && (FenceAt(r, lines, i - 1) == Some(f) ==> f.minimum > 0 && (f.marker == '`' || f.marker == '~'))
    ensures
      var before, s := FenceAt(r, lines, i - 1), lines[i - 1].content;
      FenceAt(r, lines, i) == Some(f) <==>
      (before == Some(f) && !Closes(s, f)) || (before == None && Ordinary(r, s) && Opens(s, f))
  {
    var last := lines[i - 1];
    assert FenceAt(r, lines, i) == FenceAfter(r, FenceAt(r, lines, i - 1), last);
    hide ClassIn, OpeningFence, ClosingFence, Ordinary, Opens, Closes, FenceAt;
    OpeningExactly(last.content, f);
    OrdinaryExactly(r, last);
    if FenceAt(r, lines, i - 1) == Some(f) { ClosingExactly(last.content, f); }
  }

  lemma OpenSinceSteps(r: TextRules, lines: seq<Line>, f: Fence, j: nat, i: nat)
    requires 0 < i <= |lines|
    ensures
      var s := lines[i - 1].content;
      OpenSince(r, lines, f, j, i) <==>
      (OpenSince(r, lines, f, j, i - 1) && !Closes(s, f)) || (j == i - 1 && Ordinary(r, s) && Opens(s, f))
  {
    hide Ordinary, Opens, Closes;
  }

  lemma OpenedByMarker(r: TextRules, lines: seq<Line>, f: Fence, j: nat, i: nat)
    requires i <= |lines| && OpenSince(r, lines, f, j, i)
    ensures f.minimum > 0 && (f.marker == '`' || f.marker == '~')
  {
    hide Ordinary, Closes, FenceLine;
  }

  // Some ordinary line outside every fence opened it and none closed it since.
  ghost predicate Opened(r: TextRules, lines: seq<Line>, f: Fence, i: nat)
    requires i <= |lines|
  {
    exists j: nat :: j < i && FenceAt(r, lines, j).None? && OpenSince(r, lines, f, j, i)
  }

  lemma OpenedSteps(r: TextRules, lines: seq<Line>, f: Fence, i: nat)
    requires 0 < i <= |lines|
    ensures
      var s := lines[i - 1].content;
      Opened(r, lines, f, i) <==>
      (Opened(r, lines, f, i - 1) && !Closes(s, f)) || (FenceAt(r, lines, i - 1) == None && Ordinary(r, s) && Opens(s, f))
  {
    hide FenceAt, OpenSince, Ordinary, Opens, Closes;
    forall j: nat
      ensures OpenSince(r, lines, f, j, i) <==>
              (OpenSince(r, lines, f, j, i - 1) && !Closes(lines[i - 1].content, f)) ||
              (j == i - 1 && Ordinary(r, lines[i - 1].content) && Opens(lines[i - 1].content, f))
    {
      OpenSinceSteps(r, lines, f, j, i);
    }
    NotSinceItself(r, lines, f, i - 1);
  }

  lemma NotSinceItself(r: TextRules, lines: seq<Line>, f: Fence, i: nat)
    requires i <= |lines|
    ensures forall j: nat :: j >= i ==> !OpenSince(r, lines, f, j, i)
  {
  }

  lemma OpenedMarker(r: TextRules, lines: seq<Line>, f: Fence, i: nat)
    requires i <= |lines| && Opened(r, lines, f, i)
    ensures f.minimum > 0 && (f.marker == '`' || f.marker == '~')
  {
    hide FenceAt, OpenSince;
    var j: nat :| j < i && FenceAt(r, lines, j).None? && OpenSince(r, lines, f, j, i);
    OpenedByMarker(r, lines, f, j, i);
  }

  lemma NothingOpened(r: TextRules, lines: seq<Line>, f: Fence)
    ensures FenceAt(r, lines, 0) == None && !Opened(r, lines, f, 0)
  {
  }

  // Which fence is open before a line.
  lemma {:induction false} FenceExactly(r: TextRules, lines: seq<Line>, i: nat, f: Fence)
    requires i <= |lines|
    ensures FenceAt(r, lines, i) == Some(f) <==> Opened(r, lines, f, i)
  {
    hide *;
    if i == 0 {
      NothingOpened(r, lines, f);
    } else {
      FenceExactly(r, lines, i - 1, f);
      if Opened(r, lines, f, i - 1) { OpenedMarker(r, lines, f, i - 1); }
      FenceSteps(r, lines, i, f);
      OpenedSteps(r, lines, f, i);
    }
  }

  // ------------------------------------------------------- what each line is

  lemma NoFenceExactly(r: TextRules, lines: seq<Line>, i: nat)
    requires i <= |lines|
    ensures FenceAt(r, lines, i).None? <==> forall f :: !Opened(r, lines, f, i)
  {
    hide FenceAt, Opened;
    forall f ensures FenceAt(r, lines, i) == Some(f) <==> Opened(r, lines, f, i) { FenceExactly(r, lines, i, f); }
    if FenceAt(r, lines, i).Some? { assert Opened(r, lines, FenceAt(r, lines, i).value, i); }
  }

  // Outside fences a line with a heading's parts is that heading, a line of white
  // space separates, and every other line, like every fenced one, is a member.
  lemma LineIsExactly(r: TextRules, lines: seq<Line>, i: nat, p: Parts)
    requires i < |lines| && CutInto(lines[i].content, p)
    ensures
      var c, s := Classes(r, lines)[i], lines[i].content;
      var from := lines[i].start + |p.indent| + |p.opening| + |p.pads|;
      c == if FenceAt(r, lines, i).Some? then MemberLine
           else if |p.indent| <= 3 && 1 <= |p.opening| <= 6 && p.pads != "" && exists c :: c in p.text && !r.isSpace(c)
           then HeadingLine(Heading(|p.opening|, p.text, from, from + |p.text|))
           else if exists c :: c in s && !r.isSpace(c) then MemberLine
           else BlankLine
  {
    hide ParseAtxHeading, CutInto, FenceAt, Classes;
    ClassesAt(r, lines, i);
    HeadingDecided(r.isSpace, lines[i], p);
    ShowsExactly(r.isSpace, lines[i].content);
  }

  // ---------------------------------------------------------------- boundaries

  const BOUNDARIES: set<int> := {10, 11, 12, 13, 28, 29, 30, 133, 8232, 8233}

  // The lines of a text start at its beginning and behind the characters that
  // str.splitlines() splits at, a carriage return and line feed taken together.
  lemma LinesStartAt(text: string, p: nat)
    ensures (exists i :: 0 <= i < |LinesOf(text)| && LinesOf(text)[i].start == p) <==>
            p < |text| &&
            (p == 0 || (text[p - 1] as int in BOUNDARIES && !(text[p - 1] as int == 13 && text[p] as int == 10)))
  {
    LinesOfTile(text);
    assert LineStart(text, p) <==>
           p < |text| && (p == 0 || (text[p - 1] as int in BOUNDARIES && !(text[p - 1] as int == 13 && text[p] as int == 10)));
    hide LinesOf, Tiles, LineStart;
    LinesStartExactly(text, LinesOf(text), p);
  }

  // text.replace("\r\n", "\n").replace("\r", "\n")
  function ReplacePair(s: string): string {
    if |s| < 2 then s
    else if s[0] == '\r' && s[1] == '\n' then ['\n'] + ReplacePair(s[2..])
    else [s[0]] + ReplacePair(s[1..])
  }

  function ReplaceReturns(s: string): string {
    if s == "" then "" else [if s[0] == '\r' then '\n' else s[0]] + ReplaceReturns(s[1..])
  }

  lemma {:induction false} NewlinesAreReplacements(s: string)
    ensures Newlines(s) == ReplaceReturns(ReplacePair(s))
  {
    if |s| >= 2 && s[0] == '\r' && s[1] == '\n' {
      NewlinesAreReplacements(s[2..]);
    } else if s != "" {
      NewlinesAreReplacements(s[1..]);
    }
  }

  // Character by character: a carriage return gives a line feed, a line feed behind
  // one gives nothing more, and anything else stays.
  lemma {:induction false} NewlinesGrow(s: string, c: char)
    ensures Newlines(s + [c]) ==
            if c == '\r' then Newlines(s) + "\n"
            else if c == '\n' && s != "" && s[|s| - 1] == '\r' then Newlines(s)
            else Newlines(s) + [c]
  {
    if |s| >= 2 && s[0] == '\r' && s[1] == '\n' {
      NewlinesGrow(s[2..], c);
      assert (s + [c])[2..] == s[2..] + [c];
    } else if s != "" {
      NewlinesGrow(s[1..], c);
      assert (s + [c])[1..] == s[1..] + [c];
    }
  }
}
