// The text parser: one pass over the lines that emits heading and paragraph
// fragments with their addresses.

module MarkdownParser {
  import opened Common
  import opened MarkdownLines
  import opened HeadingContext

  datatype Kind = HeadingFragment | ParagraphFragment

  datatype Address = Address(headingPath: seq<string>, lineStart: nat, lineEnd: nat, charStart: nat, charEnd: nat)

  datatype Fragment = Fragment(ordinal: nat, kind: Kind, text: string, address: Address)

  datatype ParseError = InvalidUtf8 | ContainsNul | TooLong | NoExtractableText

  // ------------------------------------------------------------- constructors

  // Normal forms of Unicode text: normalizing twice is normalizing once, and a
  // part of a normalized text is normalized (UAX 15, section 3.4).
  ghost predicate NormalForm(r: TextRules) {
    (forall s :: r.nfc(r.nfc(s)) == r.nfc(s)) &&
    forall s, i, j :: 0 <= i <= j <= |s| && r.nfc(s) == s ==> r.nfc(s[i..j]) == s[i..j]
  }

  predicate ValidAddress(r: TextRules, a: Address) {
    (forall part :: part in a.headingPath ==> !Blank(r.isSpace, part)) &&
    1 <= a.lineStart <= a.lineEnd && a.charStart < a.charEnd
  }

  // The fragment constructor normalizes path and text and refuses what is not an
  // exact, visible span.
  function NewFragment(r: TextRules, ordinal: nat, kind: Kind, text: string, a: Address): Option<Fragment> {
    var address := a.(headingPath := Map(r.nfc, a.headingPath));
    var normal := r.nfc(text);
    if !ValidAddress(r, address) || Blank(r.isSpace, normal) || '\0' in normal || a.charEnd - a.charStart != |normal| then None
    else Some(Fragment(ordinal, kind, normal, address))
  }

  // A part of the normalized text that shows something.
  predicate Sound(r: TextRules, s: string) {
    r.nfc(s) == s && !Blank(r.isSpace, s) && '\0' !in s
  }

  predicate SoundTitles(r: TextRules, stack: seq<Title>) {
    forall t :: t in stack ==> Sound(r, t.text)
  }

  lemma FragmentIsBuilt(r: TextRules, ordinal: nat, kind: Kind, text: string, a: Address)
    requires Sound(r, text) && (forall part :: part in a.headingPath ==> Sound(r, part))
    requires 1 <= a.lineStart <= a.lineEnd && a.charStart < a.charEnd && a.charEnd - a.charStart == |text|
    ensures NewFragment(r, ordinal, kind, text, a) == Some(Fragment(ordinal, kind, text, a))
  {
    forall i | 0 <= i < |a.headingPath| ensures Map(r.nfc, a.headingPath)[i] == a.headingPath[i] {
      assert a.headingPath[i] in a.headingPath;
    }
    assert Map(r.nfc, a.headingPath) == a.headingPath;
  }

  lemma SoundPart(r: TextRules, text: string, i: nat, j: nat)
    requires NormalForm(r) && r.nfc(text) == text && '\0' !in text && i <= j <= |text| && !Blank(r.isSpace, text[i..j])
    ensures Sound(r, text[i..j])
  {
  }

  lemma TextsAreSound(r: TextRules, stack: seq<Title>)
    requires SoundTitles(r, stack)
    ensures forall part :: part in Texts(stack) ==> Sound(r, part)
  {
    var texts := Texts(stack);
    forall part | part in texts ensures Sound(r, part) {
      var i :| 0 <= i < |texts| && texts[i] == part;
      assert stack[i] in stack && part == stack[i].text;
    }
  }

  // -------------------------------------------------------- the emitted fragments

  function ParagraphOf(text: string, ordinal: nat, path: seq<string>, paragraph: seq<Line>): Fragment
    requires paragraph != [] && paragraph[0].start <= paragraph[|paragraph| - 1].end <= |text|
  {
    var first, last := paragraph[0], paragraph[|paragraph| - 1];
    Fragment(ordinal, ParagraphFragment, text[first.start..last.end],
             Address(path, first.number, last.number, first.start, last.end))
  }

  function HeadingFragmentOf(ordinal: nat, path: seq<string>, line: Line, h: Heading): Fragment {
    Fragment(ordinal, HeadingFragment, h.text, Address(path, line.number, line.number, h.start, h.end))
  }

  predicate Placed(text: string, lines: seq<Line>) {
    forall i :: 0 <= i < |lines| ==>
      lines[i].number == i + 1 && lines[i].start <= lines[i].end <= |text| && lines[i].content == text[lines[i].start..lines[i].end]
  }

  // Paragraph: a longest run of member lines. Heading: one heading line.
  ghost predicate FragmentFits(text: string, lines: seq<Line>, cs: seq<LineClass>, f: Fragment, n: nat)
    requires |cs| == |lines| && n <= |lines|
  {
    var a, b := f.address.lineStart - 1, f.address.lineEnd - 1;
    0 <= a <= b < n &&
    match f.kind
    case HeadingFragment =>
      a == b && cs[a].HeadingLine? && f == HeadingFragmentOf(f.ordinal, PathAt(Headings(cs), a + 1), lines[a], cs[a].heading)
    case ParagraphFragment =>
      (forall k :: a <= k <= b ==> cs[k] == MemberLine) && (a > 0 ==> cs[a - 1] != MemberLine) &&
      (b + 1 < |lines| ==> cs[b + 1] != MemberLine) &&
      lines[a].start <= lines[b].end <= |text| &&
      f == ParagraphOf(text, f.ordinal, PathAt(Headings(cs), a), lines[a..b + 1])
  }

  predicate Within(f: Fragment, i: nat) {
    f.address.lineStart <= i + 1 <= f.address.lineEnd
  }

  // The fragments are those of the first `n` lines: numbered and ordered, each in
  // its place, and none missing.
  ghost predicate Covers(text: string, lines: seq<Line>, cs: seq<LineClass>, fragments: seq<Fragment>, n: nat)
    requires |cs| == |lines| && n <= |lines|
  {
    (forall k :: 0 <= k < |fragments| ==> fragments[k].ordinal == k && FragmentFits(text, lines, cs, fragments[k], n)) &&
    (forall k :: 0 < k < |fragments| ==> fragments[k - 1].address.lineEnd < fragments[k].address.lineStart) &&
    forall i :: 0 <= i < n && cs[i] != BlankLine ==> exists k :: 0 <= k < |fragments| && Within(fragments[k], i)
  }

  lemma CoversMore(
    text: string, lines: seq<Line>, cs: seq<LineClass>, fragments: seq<Fragment>, n: nat, f: Fragment, m: nat)
    requires |cs| == |lines| && n <= m <= |lines| && Covers(text, lines, cs, fragments, n)
    requires f.ordinal == |fragments| && FragmentFits(text, lines, cs, f, m) && n < f.address.lineStart
    requires forall i :: n <= i < m && cs[i] != BlankLine ==> Within(f, i)
    ensures Covers(text, lines, cs, fragments + [f], m)
  {
    var more := fragments + [f];
    forall k | 0 <= k < |more| ensures more[k].ordinal == k && FragmentFits(text, lines, cs, more[k], m) {
      if k < |fragments| { assert FragmentFits(text, lines, cs, fragments[k], n); }
    }
    forall k | 0 < k < |more| ensures more[k - 1].address.lineEnd < more[k].address.lineStart {
      if k == |fragments| { assert FragmentFits(text, lines, cs, fragments[k - 1], n); }
    }
    hide FragmentFits;
    forall i | 0 <= i < m && cs[i] != BlankLine ensures exists k :: 0 <= k < |more| && Within(more[k], i) {
      if i < n {
        var k :| 0 <= k < |fragments| && Within(fragments[k], i);
        assert Within(more[k], i);
      } else {
        assert Within(more[|fragments|], i);
      }
    }
  }

  lemma CoversBlank(text: string, lines: seq<Line>, cs: seq<LineClass>, fragments: seq<Fragment>, n: nat)
    requires |cs| == |lines| && n < |lines| && Covers(text, lines, cs, fragments, n) && cs[n] == BlankLine
    ensures Covers(text, lines, cs, fragments, n + 1)
  {
    forall k | 0 <= k < |fragments| ensures FragmentFits(text, lines, cs, fragments[k], n + 1) {
      assert FragmentFits(text, lines, cs, fragments[k], n);
    }
  }

  // ------------------------------------------------------------ the loop's state

  // `paragraph` holds the member lines right before line `i`, as far back as they go.
  ghost predicate Gathered(r: TextRules, lines: seq<Line>, cs: seq<LineClass>, paragraph: seq<Line>, i: nat)
    requires |cs| == |lines|
  {
    i <= |lines| && |paragraph| <= i && paragraph == lines[i - |paragraph|..i] &&
    (forall k :: i - |paragraph| <= k < i ==> cs[k] == MemberLine) &&
    (|paragraph| < i ==> cs[i - |paragraph| - 1] != MemberLine) &&
    (paragraph != [] ==> !Blank(r.isSpace, paragraph[0].content))
  }

  function Flushed(text: string, fragments: seq<Fragment>, stack: seq<Title>, paragraph: seq<Line>): seq<Fragment>
    requires paragraph != [] ==> paragraph[0].start <= paragraph[|paragraph| - 1].end <= |text|
  {
    if paragraph == [] then fragments else fragments + [ParagraphOf(text, |fragments|, Texts(stack), paragraph)]
  }

  lemma ParagraphPlaced(text: string, lines: seq<Line>, from: nat, to: nat)
    requires Placed(text, lines) && Ordered(lines) && from < to <= |lines|
    ensures lines[from..to][0] == lines[from] && lines[from..to][to - from - 1] == lines[to - 1]
    ensures lines[from].start <= lines[from].end <= lines[to - 1].end <= |text|
  {
    if from < to - 1 { assert lines[from].end <= lines[to - 1].start; }
  }

  predicate Ordered(lines: seq<Line>) {
    forall i, j :: 0 <= i < j < |lines| ==> lines[i].end <= lines[j].start
  }

  lemma ParagraphFits(
    r: TextRules, text: string, lines: seq<Line>, cs: seq<LineClass>, ordinal: nat, paragraph: seq<Line>, i: nat)
    requires |cs| == |lines| && Placed(text, lines) && Ordered(lines) && Gathered(r, lines, cs, paragraph, i)
    requires paragraph != [] && (i < |lines| ==> cs[i] != MemberLine)
    ensures paragraph[0].start <= paragraph[|paragraph| - 1].end <= |text|
    ensures
      var f := ParagraphOf(text, ordinal, PathAt(Headings(cs), i - |paragraph|), paragraph);
      FragmentFits(text, lines, cs, f, i) && f.address.lineStart == i - |paragraph| + 1 && f.address.lineEnd == i
  {
    hide PathAt, Headings;
    var from := i - |paragraph|;
    ParagraphPlaced(text, lines, from, i);
    assert lines[from].number == from + 1 && lines[i - 1].number == i;
    assert lines[from..i] == paragraph;
  }

  lemma NoHeadingsInside(r: TextRules, lines: seq<Line>, cs: seq<LineClass>, paragraph: seq<Line>, i: nat)
    requires |cs| == |lines| && Gathered(r, lines, cs, paragraph, i)
    ensures PathAt(Headings(cs), i - |paragraph|) == Texts(StackAt(Headings(cs), i))
  {
    StackSteady(Headings(cs), i - |paragraph|, i);
  }

  // A line that ends a paragraph makes the flushed fragment a longest run.
  lemma FlushCovers(
    r: TextRules, text: string, lines: seq<Line>, cs: seq<LineClass>, fragments: seq<Fragment>,
    paragraph: seq<Line>, i: nat)
    requires |cs| == |lines| && Placed(text, lines) && Ordered(lines) && Gathered(r, lines, cs, paragraph, i)
    requires Covers(text, lines, cs, fragments, i - |paragraph|) && (i < |lines| ==> cs[i] != MemberLine)
    ensures paragraph != [] ==> paragraph[0].start <= paragraph[|paragraph| - 1].end <= |text|
    ensures Covers(text, lines, cs, Flushed(text, fragments, StackAt(Headings(cs), i), paragraph), i)
  {
    if paragraph != [] {
      ParagraphFits(r, text, lines, cs, |fragments|, paragraph, i);
      NoHeadingsInside(r, lines, cs, paragraph, i);
      hide Covers, StackAt, PathAt, Texts, Headings, FragmentFits, Placed, Ordered, Gathered;
      var f := ParagraphOf(text, |fragments|, Texts(StackAt(Headings(cs), i)), paragraph);
      assert i <= |lines| && |paragraph| <= i by { GatheredBounds(r, lines, cs, paragraph, i); }
      CoversMore(text, lines, cs, fragments, i - |paragraph|, f, i);
    }
  }

  lemma GatheredBounds(r: TextRules, lines: seq<Line>, cs: seq<LineClass>, paragraph: seq<Line>, i: nat)
    requires |cs| == |lines| && Gathered(r, lines, cs, paragraph, i)
    ensures i <= |lines| && |paragraph| <= i
  {
  }

  // The discard of blank paragraphs never happens, and every constructor accepts.
  method FlushParagraph(
    r: TextRules, text: string, fragments: seq<Fragment>, stack: seq<Title>, paragraph: seq<Line>)
    returns (flushed: seq<Fragment>)
    requires NormalForm(r) && r.nfc(text) == text && '\0' !in text && SoundTitles(r, stack)
    requires paragraph != [] ==> ShowsText(r, text, paragraph)
    ensures flushed == Flushed(text, fragments, stack, paragraph)
  {
    hide NormalForm, Sound, NewFragment;
    if paragraph == [] { return fragments; }
    var first, last := paragraph[0], paragraph[|paragraph| - 1];
    var content := text[first.start..last.end];
    NotBlank(r, text, first.start, first.end, last.end);
    SoundPart(r, text, first.start, last.end);
    TextsAreSound(r, stack);
    var address := Address(Texts(stack), first.number, last.number, first.start, last.end);
    FragmentIsBuilt(r, |fragments|, ParagraphFragment, content, address);
    var built := NewFragment(r, |fragments|, ParagraphFragment, content, address);
    flushed := fragments + [built.value];
  }

  predicate ShowsText(r: TextRules, text: string, paragraph: seq<Line>)
    requires paragraph != []
  {
    var first, last := paragraph[0], paragraph[|paragraph| - 1];
    first.start <= first.end <= last.end <= |text| && first.content == text[first.start..first.end] &&
    !Blank(r.isSpace, first.content) && 1 <= first.number <= last.number
  }

  lemma NotBlank(r: TextRules, text: string, start: nat, mid: nat, end: nat)
    requires start <= mid <= end <= |text| && !Blank(r.isSpace, text[start..mid])
    ensures !Blank(r.isSpace, text[start..end]) && start < end
  {
    var c :| c in text[start..mid] && !r.isSpace(c);
    var i :| 0 <= i < mid - start && text[start..mid][i] == c;
    assert text[start..end][i] == c;
  }

  // ------------------------------------------------------------------ the steps

  // The parser's state before line `i`.
  ghost predicate Reached(
    r: TextRules, text: string, lines: seq<Line>, i: nat, fragments: seq<Fragment>, stack: seq<Title>,
    paragraph: seq<Line>, fence: Option<Fence>)
  {
    var cs := Classes(r, lines);
    i <= |lines| && fence == FenceAt(r, lines, i) && (fence.Some? ==> paragraph != []) &&
    stack == StackAt(Headings(cs), i) && Gathered(r, lines, cs, paragraph, i) &&
    Covers(text, lines, cs, fragments, i - |paragraph|)
  }

  lemma GatherOne(r: TextRules, lines: seq<Line>, cs: seq<LineClass>, paragraph: seq<Line>, i: nat)
    requires |cs| == |lines| && i < |lines| && Gathered(r, lines, cs, paragraph, i) && cs[i] == MemberLine
    requires paragraph == [] ==> !Blank(r.isSpace, lines[i].content)
    ensures Gathered(r, lines, cs, paragraph + [lines[i]], i + 1)
  {
    hide Blank;
    var from, longer := i - |paragraph|, paragraph + [lines[i]];
    OneLonger(lines, from, i);
    assert longer[0] == if paragraph == [] then lines[i] else paragraph[0];
    assert i + 1 - |longer| == from;
  }

  lemma OneLonger<T>(s: seq<T>, from: nat, to: nat)
    requires from <= to < |s|
    ensures s[from..to + 1] == s[from..to] + [s[to]]
  {
  }

  lemma FenceStep(r: TextRules, lines: seq<Line>, i: nat)
    requires i < |lines|
    ensures FenceAt(r, lines, i + 1) == FenceAfter(r, FenceAt(r, lines, i), lines[i])
    ensures Classes(r, lines)[i] == ClassIn(r, FenceAt(r, lines, i), lines[i])
    ensures Classes(r, lines)[i] != MemberLine ==> FenceAt(r, lines, i).None? && FenceAt(r, lines, i + 1).None?
    ensures Classes(r, lines)[i] == MemberLine && FenceAt(r, lines, i).None? ==> !Blank(r.isSpace, lines[i].content)
  {
    hide ParseAtxHeading, Blank, OpeningFence, ClosingFence, Classes;
    ClassesAt(r, lines, i);
  }

  lemma StackAfter(cs: seq<LineClass>, i: nat)
    requires i < |cs|
    ensures
      StackAt(Headings(cs), i + 1) ==
      match cs[i]
      case HeadingLine(h) => Popped(StackAt(Headings(cs), i), h.level) + [Title(h.level, h.text)]
      case _ => StackAt(Headings(cs), i)
  {
    StackStep(Headings(cs), i);
    hide StackAt, Popped;
  }

  lemma MemberStep(
    r: TextRules, text: string, lines: seq<Line>, i: nat, fragments: seq<Fragment>, stack: seq<Title>,
    paragraph: seq<Line>, fence: Option<Fence>)
    requires Reached(r, text, lines, i, fragments, stack, paragraph, fence)
    requires i < |lines| && Classes(r, lines)[i] == MemberLine
    ensures Reached(r, text, lines, i + 1, fragments, stack, paragraph + [lines[i]], FenceAfter(r, fence, lines[i]))
  {
    var cs := Classes(r, lines);
    hide Covers, Gathered, FenceAt, FenceAfter, Classes, ClassIn, Headings, StackAt, Blank, ParseAtxHeading;
    FenceStep(r, lines, i);
    GatherOne(r, lines, cs, paragraph, i);
    StackAfter(cs, i);
  }

  lemma BlankStep(
    r: TextRules, text: string, lines: seq<Line>, i: nat, fragments: seq<Fragment>, stack: seq<Title>,
    paragraph: seq<Line>, fence: Option<Fence>)
    requires Placed(text, lines) && Ordered(lines) && Reached(r, text, lines, i, fragments, stack, paragraph, fence)
    requires i < |lines| && Classes(r, lines)[i] == BlankLine
    ensures paragraph != [] ==> paragraph[0].start <= paragraph[|paragraph| - 1].end <= |text|
    ensures Reached(r, text, lines, i + 1, Flushed(text, fragments, stack, paragraph), stack, [], None)
  {
    var cs := Classes(r, lines);
    hide Covers, Gathered, FenceAt, FenceAfter, Classes, ClassIn, Headings, StackAt, Blank, ParseAtxHeading, Placed, Ordered,
         Flushed;
    FenceStep(r, lines, i);
    FlushCovers(r, text, lines, cs, fragments, paragraph, i);
    CoversBlank(text, lines, cs, Flushed(text, fragments, stack, paragraph), i);
    StackAfter(cs, i);
    NothingGathered(r, lines, cs, i + 1);
  }

  lemma NothingGathered(r: TextRules, lines: seq<Line>, cs: seq<LineClass>, i: nat)
    requires |cs| == |lines| && 0 < i <= |lines| && cs[i - 1] != MemberLine
    ensures Gathered(r, lines, cs, [], i)
  {
  }

  lemma HeadingFits(text: string, lines: seq<Line>, cs: seq<LineClass>, i: nat, f: Fragment)
    requires |cs| == |lines| && i < |lines| && Placed(text, lines) && cs[i].HeadingLine?
    requires f == HeadingFragmentOf(f.ordinal, PathAt(Headings(cs), i + 1), lines[i], cs[i].heading)
    ensures FragmentFits(text, lines, cs, f, i + 1) && f.address.lineStart == i + 1
  {
    hide PathAt, Headings;
  }

  lemma HeadingStep(
    r: TextRules, text: string, lines: seq<Line>, i: nat, fragments: seq<Fragment>, stack: seq<Title>,
    paragraph: seq<Line>, fence: Option<Fence>, h: Heading)
    requires Placed(text, lines) && Ordered(lines) && Reached(r, text, lines, i, fragments, stack, paragraph, fence)
    requires i < |lines| && Classes(r, lines)[i] == HeadingLine(h)
    ensures paragraph != [] ==> paragraph[0].start <= paragraph[|paragraph| - 1].end <= |text|
    ensures
      var flushed := Flushed(text, fragments, stack, paragraph);
      var titles := Popped(stack, h.level) + [Title(h.level, h.text)];
      Reached(r, text, lines, i + 1, flushed + [HeadingFragmentOf(|flushed|, Texts(titles), lines[i], h)], titles, [], None)
  {
    var cs := Classes(r, lines);
    hide Covers, Gathered, FenceAt, FenceAfter, Classes, ClassIn, Headings, StackAt, Blank, ParseAtxHeading, Placed, Ordered,
         Flushed, Popped, FragmentFits, Texts;
    FenceStep(r, lines, i);
    FlushCovers(r, text, lines, cs, fragments, paragraph, i);
    StackAfter(cs, i);
    var flushed := Flushed(text, fragments, stack, paragraph);
    var titles := Popped(stack, h.level) + [Title(h.level, h.text)];
    var f := HeadingFragmentOf(|flushed|, Texts(titles), lines[i], h);
    HeadingFits(text, lines, cs, i, f);
    CoversMore(text, lines, cs, flushed, i, f, i + 1);
    NothingGathered(r, lines, cs, i + 1);
  }

  // ----------------------------------------------------------------- soundness

  lemma TilesAreOrdered(text: string, lines: seq<Line>)
    requires Tiles(text, lines)
    ensures Placed(text, lines) && Ordered(lines)
  {
    hide LineStart;
    forall i | 0 <= i < |lines|
      ensures lines[i].number == i + 1 && lines[i].start <= lines[i].end <= |text| && lines[i].content == text[lines[i].start..lines[i].end]
    {
      assert LineFits(text, lines, i, |text|);
    }
    hide Tiles;
    forall i, j | 0 <= i < j < |lines| ensures lines[i].end <= lines[j].start { EarlierEnds(text, lines, i, j); }
  }

  lemma {:induction false} EarlierEnds(text: string, lines: seq<Line>, i: nat, j: nat)
    requires Tiles(text, lines) && i < j < |lines|
    ensures lines[i].end <= lines[j].start
    decreases j
  {
    hide LineStart;
    assert LineFits(text, lines, j - 1, |text|);
    if i < j - 1 { EarlierEnds(text, lines, i, j - 1); }
  }

  lemma HeadingIsPart(r: TextRules, text: string, line: Line)
    requires line.start <= line.end <= |text| && line.content == text[line.start..line.end]
    requires ParseAtxHeading(r.isSpace, line).Some?
    ensures
      var h := ParseAtxHeading(r.isSpace, line).value;
      line.start <= h.start < h.end <= line.end && h.text == text[h.start..h.end] && !Blank(r.isSpace, h.text)
  {
    hide *;
    HeadingInLine(r.isSpace, line);
    var h := ParseAtxHeading(r.isSpace, line).value;
    PartOfPart(text, line.start, line.end, h.start, h.end);
  }

  lemma PartOfPart(text: string, start: nat, end: nat, from: nat, to: nat)
    requires start <= from <= to <= end <= |text|
    ensures text[start..end][from - start..to - start] == text[from..to]
  {
    var part := text[start..end][from - start..to - start];
    forall k | 0 <= k < to - from ensures part[k] == text[from..to][k] { assert part[k] == text[from + k]; }
  }

  lemma HeadingIsSound(r: TextRules, text: string, lines: seq<Line>, i: nat)
    requires NormalForm(r) && r.nfc(text) == text && '\0' !in text && Placed(text, lines) && i < |lines|
    requires ParseAtxHeading(r.isSpace, lines[i]).Some?
    ensures
      var h := ParseAtxHeading(r.isSpace, lines[i]).value;
      Sound(r, h.text) && h.start < h.end && h.end - h.start == |h.text|
  {
    hide NormalForm, ParseAtxHeading, Blank;
    HeadingIsPart(r, text, lines[i]);
    hide Sound;
    var h := ParseAtxHeading(r.isSpace, lines[i]).value;
    SoundPart(r, text, h.start, h.end);
  }

  lemma StackIsSound(r: TextRules, text: string, lines: seq<Line>, i: nat)
    requires NormalForm(r) && r.nfc(text) == text && '\0' !in text && Placed(text, lines) && i <= |lines|
    ensures SoundTitles(r, StackAt(Headings(Classes(r, lines)), i))
  {
    var cs := Classes(r, lines);
    var hs := Headings(cs);
    hide NormalForm, Sound, Classes, Headings, Placed, ParseAtxHeading, Blank, FenceAt, Titles;
    forall t | t in StackAt(hs, i) ensures Sound(r, t.text) {
      TitlesAreHeadings(hs, i, i, t);
      var j :| 0 <= j < i && hs[..i][j] == Some(t);
      assert hs[j] == TitleOf(cs[j]);
      ClassesAt(r, lines, j);
      HeadingIsSound(r, text, lines, j);
    }
  }

  lemma ParagraphShows(
    r: TextRules, text: string, lines: seq<Line>, cs: seq<LineClass>, paragraph: seq<Line>, i: nat)
    requires |cs| == |lines| && Placed(text, lines) && Ordered(lines) && Gathered(r, lines, cs, paragraph, i)
    ensures paragraph != [] ==> ShowsText(r, text, paragraph)
  {
    hide Blank;
    if paragraph != [] {
      ParagraphPlaced(text, lines, i - |paragraph|, i);
      assert lines[i - 1].number == i && lines[i - |paragraph|].number == i - |paragraph| + 1;
    }
  }

  // ------------------------------------------------------------------ the parser

  method HeadingOnLine(
    r: TextRules, text: string, ghost lines: seq<Line>, ghost i: nat, fragments: seq<Fragment>, stack: seq<Title>, line: Line, h: Heading)
    returns (added: seq<Fragment>, titles: seq<Title>)
    requires NormalForm(r) && r.nfc(text) == text && '\0' !in text && SoundTitles(r, stack)
    requires Placed(text, lines) && i < |lines| && line == lines[i] && ParseAtxHeading(r.isSpace, line) == Some(h)
    ensures titles == Popped(stack, h.level) + [Title(h.level, h.text)]
    ensures added == fragments + [HeadingFragmentOf(|fragments|, Texts(titles), line, h)]
  {
    var kept := PopTo(stack, h.level);
    titles := kept + [Title(h.level, h.text)];
    HeadingIsBuilt(r, text, lines, i, |fragments|, stack, h);
    var address := Address(Texts(titles), line.number, line.number, h.start, h.end);
    hide NewFragment, Texts, Popped;
    var built := NewFragment(r, |fragments|, HeadingFragment, h.text, address);
    added := fragments + [built.value];
  }

  lemma HeadingIsBuilt(
    r: TextRules, text: string, lines: seq<Line>, i: nat, ordinal: nat, stack: seq<Title>, h: Heading)
    requires NormalForm(r) && r.nfc(text) == text && '\0' !in text && SoundTitles(r, stack)
    requires Placed(text, lines) && i < |lines| && ParseAtxHeading(r.isSpace, lines[i]) == Some(h)
    ensures
      var f := HeadingFragmentOf(ordinal, Texts(Popped(stack, h.level) + [Title(h.level, h.text)]), lines[i], h);
      NewFragment(r, ordinal, HeadingFragment, h.text, f.address) == Some(f)
  {
    assert lines[i].number == i + 1;
    hide NormalForm, Sound, NewFragment, ParseAtxHeading, Popped, Blank, Placed, Texts;
    HeadingIsSound(r, text, lines, i);
    PoppedIsPart(stack, h.level);
    var titles := Popped(stack, h.level) + [Title(h.level, h.text)];
    assert SoundTitles(r, titles);
    hide SoundTitles;
    TextsAreSound(r, titles);
    FragmentIsBuilt(r, ordinal, HeadingFragment, h.text, Address(Texts(titles), i + 1, i + 1, h.start, h.end));
  }

  lemma {:induction false} PoppedIsPart(s: seq<Title>, level: nat)
    ensures forall t :: t in Popped(s, level) ==> t in s
  {
    if s != [] { PoppedIsPart(s[..|s| - 1], level); }
  }

  lemma AtTheStart(r: TextRules, text: string, lines: seq<Line>)
    ensures Reached(r, text, lines, 0, [], [], [], None)
  {
  }

  // What a step needs of the state.
  lemma StateHolds(
    r: TextRules, text: string, lines: seq<Line>, i: nat, fragments: seq<Fragment>, stack: seq<Title>,
    paragraph: seq<Line>, fence: Option<Fence>)
    requires NormalForm(r) && r.nfc(text) == text && '\0' !in text && Placed(text, lines) && Ordered(lines)
    requires Reached(r, text, lines, i, fragments, stack, paragraph, fence)
    ensures i <= |lines| && fence == FenceAt(r, lines, i) && SoundTitles(r, stack)
    ensures paragraph != [] ==> ShowsText(r, text, paragraph)
  {
    hide NormalForm, Placed, Ordered, Gathered, Covers, FenceAt, SoundTitles, ShowsText, Classes, Headings, StackAt;
    StackIsSound(r, text, lines, i);
    ParagraphShows(r, text, lines, Classes(r, lines), paragraph, i);
  }

  lemma AtTheEnd(
    r: TextRules, text: string, lines: seq<Line>, fragments: seq<Fragment>, stack: seq<Title>,
    paragraph: seq<Line>, fence: Option<Fence>)
    requires Placed(text, lines) && Ordered(lines)
    requires Reached(r, text, lines, |lines|, fragments, stack, paragraph, fence)
    ensures paragraph != [] ==> paragraph[0].start <= paragraph[|paragraph| - 1].end <= |text|
    ensures Covers(text, lines, Classes(r, lines), Flushed(text, fragments, stack, paragraph), |lines|)
  {
    hide Placed, Ordered, Gathered, Covers, FenceAt, Classes, Headings, StackAt, Flushed;
    FlushCovers(r, text, lines, Classes(r, lines), fragments, paragraph, |lines|);
  }

  method Fragments(r: TextRules, text: string) returns (fragments: seq<Fragment>)
    requires NormalForm(r) && r.nfc(text) == text && '\0' !in text
    ensures Covers(text, LinesOf(text), Classes(r, LinesOf(text)), fragments, |LinesOf(text)|)
  {
    hide NormalForm, Reached, Classes, Headings, StackAt, Gathered, Placed, Ordered, FenceAt, ParseAtxHeading, Blank,
         ClosingFence, OpeningFence, ShowsText, SoundTitles, Popped, Covers, LinesOf, Tiles, Flushed, Texts;
    var lines := Lines(text);
    LinesOfTile(text);
    TilesAreOrdered(text, lines);
    fragments := [];
    var headingStack: seq<Title> := [];
    var paragraphLines: seq<Line> := [];
    var openFence: Option<Fence> := None;
    AtTheStart(r, text, lines);
    for i := 0 to |lines|
      invariant Reached(r, text, lines, i, fragments, headingStack, paragraphLines, openFence)
    {
      var line := lines[i];
      StateHolds(r, text, lines, i, fragments, headingStack, paragraphLines, openFence);
      FenceStep(r, lines, i);
      if openFence.Some? {
        MemberStep(r, text, lines, i, fragments, headingStack, paragraphLines, openFence);
        paragraphLines := paragraphLines + [line];
        if ClosingFence(line.content, openFence.value) { openFence := None; }
        continue;
      }
      var heading := ParseAtxHeading(r.isSpace, line);
      if heading.Some? {
        HeadingStep(r, text, lines, i, fragments, headingStack, paragraphLines, openFence, heading.value);
        fragments := FlushParagraph(r, text, fragments, headingStack, paragraphLines);
        fragments, headingStack := HeadingOnLine(r, text, lines, i, fragments, headingStack, line, heading.value);
        paragraphLines := [];
        continue;
      }
      if Blank(r.isSpace, line.content) {
        BlankStep(r, text, lines, i, fragments, headingStack, paragraphLines, openFence);
        fragments := FlushParagraph(r, text, fragments, headingStack, paragraphLines);
        paragraphLines := [];
        continue;
      }
      MemberStep(r, text, lines, i, fragments, headingStack, paragraphLines, openFence);
      paragraphLines := paragraphLines + [line];
      var opening := OpeningFence(line.content);
      if opening.Some? { openFence := opening; }
    }
    StateHolds(r, text, lines, |lines|, fragments, headingStack, paragraphLines, openFence);
    AtTheEnd(r, text, lines, fragments, headingStack, paragraphLines, openFence);
    fragments := FlushParagraph(r, text, fragments, headingStack, paragraphLines);
  }

  // Carriage returns, alone or before a line feed, become line feeds.
  function Newlines(s: string): string {
    if s == "" then ""
    else if s[0] != '\r' then [s[0]] + Newlines(s[1..])
    else if |s| > 1 && s[1] == '\n' then ['\n'] + Newlines(s[2..])
    else ['\n'] + Newlines(s[1..])
  }

  // The bytes of the source as text, if they are UTF-8.
  method ParseText(r: TextRules, decoded: Option<string>, maxCodepoints: nat) returns (result: Result<seq<Fragment>, ParseError>)
    requires NormalForm(r)
    ensures decoded.None? ==> result == Err(InvalidUtf8)
    ensures
      decoded.Some? ==>
        var text := r.nfc(Newlines(decoded.value));
        var lines := LinesOf(text);
        var cs := Classes(r, lines);
        if '\0' in text then result == Err(ContainsNul)
        else if |text| > maxCodepoints then result == Err(TooLong)
        else
          match result
          case Ok(fragments) => fragments != [] && Covers(text, lines, cs, fragments, |lines|)
          case Err(e) => e == NoExtractableText && Covers(text, lines, cs, [], |lines|)
  {
    if decoded.None? { return Err(InvalidUtf8); }
    var text := r.nfc(Newlines(decoded.value));
    if '\0' in text { return Err(ContainsNul); }
    if |text| > maxCodepoints { return Err(TooLong); }
    hide LinesOf, Classes, Covers;
    var fragments := Fragments(r, text);
    if fragments == [] { return Err(NoExtractableText); }
    return Ok(fragments);
  }
}
