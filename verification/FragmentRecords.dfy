// A fragment read off the lines it covers: its span, its text and the headings that
// were in force.

module FragmentRecords {
  import opened Common
  import opened MarkdownLines
  import opened HeadingContext
  import opened MarkdownParser

  // The heading on line `j` still stands before line `i`: every heading between them
  // is deeper.
  predicate Stands(cs: seq<LineClass>, j: nat, i: nat)
    requires i <= |cs|
  {
    j < i && cs[j].HeadingLine? && forall k :: j < k < i && cs[k].HeadingLine? ==> cs[k].heading.level > cs[j].heading.level
  }

  // `picked` lists the first `n` lines' headings that stand before line `i`.
  ghost predicate PicksStanding(cs: seq<LineClass>, picked: seq<nat>, n: nat, i: nat)
    requires n <= i <= |cs|
  {
    (forall t :: 0 <= t < |picked| ==> picked[t] < n && Stands(cs, picked[t], i)) &&
    (forall t, u :: 0 <= t < u < |picked| ==> picked[t] < picked[u]) &&
    forall j: nat :: j < n && Stands(cs, j, i) ==> j in picked
  }

  predicate NamesHeadings(cs: seq<LineClass>, path: seq<string>, picked: seq<nat>) {
    |path| == |picked| && forall t :: 0 <= t < |picked| ==> picked[t] < |cs| && cs[picked[t]].HeadingLine? && path[t] == cs[picked[t]].heading.text
  }

  // The path holds the texts of the headings that stand before line `i`, in order.
  ghost predicate PathFits(cs: seq<LineClass>, path: seq<string>, i: nat)
    requires i <= |cs|
  {
    exists picked :: PicksStanding(cs, picked, i, i) && NamesHeadings(cs, path, picked)
  }

  lemma StandsExactly(cs: seq<LineClass>, j: nat, i: nat)
    requires j < i <= |cs|
    ensures InForce(Headings(cs), j, i) <==> Stands(cs, j, i)
  {
    forall k | 0 <= k < |cs| ensures Headings(cs)[k] == TitleOf(cs[k]) {}
  }

  lemma PicksMore(cs: seq<LineClass>, picked: seq<nat>, n: nat, i: nat)
    requires n < i <= |cs| && PicksStanding(cs, picked, n, i)
    ensures Stands(cs, n, i) ==> PicksStanding(cs, picked + [n], n + 1, i)
    ensures !Stands(cs, n, i) ==> PicksStanding(cs, picked, n + 1, i)
  {
    hide Stands;
    var more := picked + [n];
    forall j: nat | j < n + 1 && Stands(cs, j, i) ensures j in more {
      if j < n { assert j in picked; } else { assert more[|picked|] == n; }
    }
  }

  lemma TitlesStep(cs: seq<LineClass>, n: nat, i: nat)
    requires 0 < n <= i <= |cs|
    ensures
      var hs := Headings(cs);
      Texts(Titles(hs, n, i)) ==
      if Stands(cs, n - 1, i) then Texts(Titles(hs, n - 1, i)) + [cs[n - 1].heading.text] else Texts(Titles(hs, n - 1, i))
  {
    var hs := Headings(cs);
    StandsExactly(cs, n - 1, i);
    assert hs[n - 1] == TitleOf(cs[n - 1]);
    hide Headings, InForce, Texts;
    if Stands(cs, n - 1, i) { TextsSnoc(Titles(hs, n - 1, i), hs[n - 1].value); }
  }

  lemma NamesMore(cs: seq<LineClass>, path: seq<string>, picked: seq<nat>, n: nat)
    requires NamesHeadings(cs, path, picked) && n < |cs| && cs[n].HeadingLine?
    ensures NamesHeadings(cs, path + [cs[n].heading.text], picked + [n])
  {
  }

  lemma {:induction false} TitlesPicked(cs: seq<LineClass>, n: nat, i: nat) returns (picked: seq<nat>)
    requires n <= i <= |cs|
    ensures PicksStanding(cs, picked, n, i) && NamesHeadings(cs, Texts(Titles(Headings(cs), n, i)), picked)
  {
    hide *;
    if n == 0 {
      picked := [];
      NothingPicked(cs, i);
    } else {
      picked := TitlesPicked(cs, n - 1, i);
      TitlesStep(cs, n, i);
      PicksMore(cs, picked, n - 1, i);
      if Stands(cs, n - 1, i) {
        StandsIsHeading(cs, n - 1, i);
        NamesMore(cs, Texts(Titles(Headings(cs), n - 1, i)), picked, n - 1);
        picked := picked + [n - 1];
      }
    }
  }

  lemma NothingPicked(cs: seq<LineClass>, i: nat)
    requires i <= |cs|
    ensures PicksStanding(cs, [], 0, i) && NamesHeadings(cs, Texts(Titles(Headings(cs), 0, i)), [])
  {
  }

  lemma StandsIsHeading(cs: seq<LineClass>, j: nat, i: nat)
    requires i <= |cs| && Stands(cs, j, i)
    ensures j < i && cs[j].HeadingLine?
  {
  }

  lemma TextsSnoc(titles: seq<Title>, t: Title)
    ensures Texts(titles + [t]) == Texts(titles) + [t.text]
  {
    var all, more := Texts(titles + [t]), Texts(titles) + [t.text];
    forall i | 0 <= i < |all| ensures all[i] == more[i] {}
  }

  lemma PathExactly(cs: seq<LineClass>, i: nat)
    requires i <= |cs|
    ensures PathFits(cs, PathAt(Headings(cs), i), i)
  {
    hide Headings, Texts, Titles, PicksStanding, NamesHeadings;
    var picked := TitlesPicked(cs, i, i);
  }

  // A heading fragment is its line's heading; a paragraph is a longest run of member
  // lines, from the start of the first to the end of the last.
  ghost predicate Says(text: string, lines: seq<Line>, cs: seq<LineClass>, f: Fragment)
    requires |cs| == |lines|
  {
    var a, b, at := f.address.lineStart - 1, f.address.lineEnd - 1, f.address;
    0 <= a <= b < |lines| && at.charStart <= at.charEnd <= |text| &&
    match f.kind
    case HeadingFragment =>
      a == b && cs[a].HeadingLine? && f.text == cs[a].heading.text && at.charStart == cs[a].heading.start &&
      at.charEnd == cs[a].heading.end && PathFits(cs, at.headingPath, a + 1)
    case ParagraphFragment =>
      (forall k :: a <= k <= b ==> cs[k].MemberLine?) && (a == 0 || !cs[a - 1].MemberLine?) && (b + 1 == |lines| || !cs[b + 1].MemberLine?) &&
      at.charStart == lines[a].start && at.charEnd == lines[b].end && f.text == text[at.charStart..at.charEnd] &&
      PathFits(cs, at.headingPath, a)
  }

  // What each fragment of a parse says.
  lemma FragmentsSay(r: TextRules, text: string, lines: seq<Line>, fragments: seq<Fragment>, k: nat)
    requires Tiles(text, lines) && Covers(text, lines, Classes(r, lines), fragments, |lines|) && k < |fragments|
    ensures fragments[k].ordinal == k && Says(text, lines, Classes(r, lines), fragments[k])
  {
    var cs, f := Classes(r, lines), fragments[k];
    CoveredFits(text, lines, cs, fragments, k);
    hide *;
    TilesAreOrdered(text, lines);
    if f.kind == HeadingFragment {
      HeadingSays(r, text, lines, f);
    } else {
      ParagraphSays(text, lines, cs, f);
    }
  }

  lemma CoveredFits(text: string, lines: seq<Line>, cs: seq<LineClass>, fragments: seq<Fragment>, k: nat)
    requires |cs| == |lines| && Covers(text, lines, cs, fragments, |lines|) && k < |fragments|
    ensures FragmentFits(text, lines, cs, fragments[k], |lines|) && fragments[k].ordinal == k
  {
    hide FragmentFits;
  }

  lemma HeadingSays(r: TextRules, text: string, lines: seq<Line>, f: Fragment)
    requires Placed(text, lines) && FragmentFits(text, lines, Classes(r, lines), f, |lines|) && f.kind == HeadingFragment
    ensures Says(text, lines, Classes(r, lines), f)
  {
    var a := f.address.lineStart - 1;
    FitsHeading(text, lines, Classes(r, lines), f);
    hide *;
    HeadingWithin(r, text, lines, a);
    HeadingFitsSays(text, lines, Classes(r, lines), f);
  }

  lemma FitsHeading(text: string, lines: seq<Line>, cs: seq<LineClass>, f: Fragment)
    requires |cs| == |lines| && FragmentFits(text, lines, cs, f, |lines|) && f.kind == HeadingFragment
    ensures 1 <= f.address.lineStart <= |lines| && cs[f.address.lineStart - 1].HeadingLine?
  {
    hide PathAt, Headings;
  }

  lemma HeadingFitsSays(text: string, lines: seq<Line>, cs: seq<LineClass>, f: Fragment)
    requires |cs| == |lines| && FragmentFits(text, lines, cs, f, |lines|) && f.kind == HeadingFragment
    requires 1 <= f.address.lineStart <= |lines| && cs[f.address.lineStart - 1].HeadingLine?
    requires var h := cs[f.address.lineStart - 1].heading; h.start <= h.end <= |text|
    ensures Says(text, lines, cs, f)
  {
    PathExactly(cs, f.address.lineStart);
    hide PathAt, Headings, PathFits;
  }

  lemma ParagraphSays(text: string, lines: seq<Line>, cs: seq<LineClass>, f: Fragment)
    requires |cs| == |lines| && Placed(text, lines) && FragmentFits(text, lines, cs, f, |lines|) && f.kind == ParagraphFragment
    ensures Says(text, lines, cs, f)
  {
    var a := f.address.lineStart - 1;
    PathExactly(cs, a);
    ParagraphSpans(text, lines, a, f.address.lineEnd - 1);
    hide PathAt, Headings, PathFits, Placed;
  }

  lemma HeadingWithin(r: TextRules, text: string, lines: seq<Line>, a: nat)
    requires Placed(text, lines) && a < |lines| && Classes(r, lines)[a].HeadingLine?
    ensures var h := Classes(r, lines)[a].heading; h.start <= h.end <= |text|
  {
    hide ParseAtxHeading, FenceAt, Blank;
    ClassesAt(r, lines, a);
    HeadingIsPart(r, text, lines[a]);
  }

  lemma ParagraphSpans(text: string, lines: seq<Line>, a: nat, b: nat)
    requires Placed(text, lines) && a <= b < |lines|
    ensures lines[a..b + 1][0] == lines[a] && lines[a..b + 1][b - a] == lines[b]
    ensures lines[a].number == a + 1 && lines[b].number == b + 1
  {
  }
}
