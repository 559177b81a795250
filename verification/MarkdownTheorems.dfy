// What the fragments of a text guarantee.

module MarkdownTheorems {
  import opened Common
  import opened MarkdownLines
  import opened HeadingContext
  import opened MarkdownParser

  lemma FragmentAt(text: string, lines: seq<Line>, cs: seq<LineClass>, fragments: seq<Fragment>, n: nat, k: nat)
    requires |cs| == |lines| && n <= |lines| && Covers(text, lines, cs, fragments, n) && k < |fragments|
    ensures FragmentFits(text, lines, cs, fragments[k], n) && fragments[k].ordinal == k
    ensures 1 <= fragments[k].address.lineStart <= fragments[k].address.lineEnd <= n
  {
  }

  lemma ClassWithin(text: string, lines: seq<Line>, cs: seq<LineClass>, f: Fragment, n: nat, i: nat)
    requires |cs| == |lines| && n <= |lines| && FragmentFits(text, lines, cs, f, n) && Within(f, i)
    ensures i < |cs| && cs[i] != BlankLine && (f.kind == HeadingFragment <==> cs[i].HeadingLine?)
  {
    hide PathAt;
  }

  lemma SomeWithin(text: string, lines: seq<Line>, cs: seq<LineClass>, fragments: seq<Fragment>, n: nat, i: nat) returns (k: nat)
    requires |cs| == |lines| && n <= |lines| && Covers(text, lines, cs, fragments, n) && i < n && cs[i] != BlankLine
    ensures k < |fragments| && Within(fragments[k], i)
  {
    hide FragmentFits, Within;
    k :| 0 <= k < |fragments| && Within(fragments[k], i);
  }

  lemma {:induction false} Ascending(text: string, lines: seq<Line>, cs: seq<LineClass>, fragments: seq<Fragment>, n: nat, k: nat, l: nat)
    requires |cs| == |lines| && n <= |lines| && Covers(text, lines, cs, fragments, n) && k < l < |fragments|
    ensures fragments[k].address.lineEnd < fragments[l].address.lineStart
  {
    FragmentAt(text, lines, cs, fragments, n, l - 1);
    hide FragmentFits;
    if k < l - 1 { Ascending(text, lines, cs, fragments, n, k, l - 1); }
  }

  // No line is lost and none is used twice: a blank line is in no fragment, every
  // other line is in exactly one, and the fragment is a heading exactly when the
  // line is.
  lemma EachLineOnce(text: string, lines: seq<Line>, cs: seq<LineClass>, fragments: seq<Fragment>, i: nat)
    requires |cs| == |lines| && Covers(text, lines, cs, fragments, |lines|) && i < |lines|
    ensures cs[i] == BlankLine ==> forall k :: 0 <= k < |fragments| ==> !Within(fragments[k], i)
    ensures cs[i] != BlankLine ==> exists k :: 0 <= k < |fragments| && Within(fragments[k], i)
    ensures forall k, l :: 0 <= k < |fragments| && 0 <= l < |fragments| && Within(fragments[k], i) && Within(fragments[l], i) ==> k == l
    ensures forall k :: 0 <= k < |fragments| && Within(fragments[k], i) ==>
              (fragments[k].kind == HeadingFragment <==> cs[i].HeadingLine?)
  {
    hide FragmentFits, Covers;
    forall k | 0 <= k < |fragments| && Within(fragments[k], i)
      ensures cs[i] != BlankLine && (fragments[k].kind == HeadingFragment <==> cs[i].HeadingLine?)
    {
      FragmentAt(text, lines, cs, fragments, |lines|, k);
      ClassWithin(text, lines, cs, fragments[k], |lines|, i);
    }
    if cs[i] != BlankLine { var k := SomeWithin(text, lines, cs, fragments, |lines|, i); }
    forall k, l | 0 <= k < |fragments| && 0 <= l < |fragments| && Within(fragments[k], i) && Within(fragments[l], i) ensures k == l {
      if k < l { Ascending(text, lines, cs, fragments, |lines|, k, l); }
      if l < k { Ascending(text, lines, cs, fragments, |lines|, l, k); }
    }
  }

  // The fragment's text is the text at its address, which lies within its lines.
  predicate IsSlice(text: string, lines: seq<Line>, f: Fragment) {
    var a := f.address;
    a.charStart <= a.charEnd <= |text| && f.text == text[a.charStart..a.charEnd] &&
    1 <= a.lineStart <= a.lineEnd <= |lines| &&
    lines[a.lineStart - 1].start <= a.charStart && a.charEnd <= lines[a.lineEnd - 1].end
  }

  lemma TextIsTheSlice(r: TextRules, text: string, lines: seq<Line>, fragments: seq<Fragment>, k: nat)
    requires Tiles(text, lines) && Covers(text, lines, Classes(r, lines), fragments, |lines|) && k < |fragments|
    ensures IsSlice(text, lines, fragments[k])
  {
    hide *;
    TilesAreOrdered(text, lines);
    FragmentAt(text, lines, Classes(r, lines), fragments, |lines|, k);
    FragmentSlice(r, text, lines, fragments[k]);
  }

  lemma FragmentSlice(r: TextRules, text: string, lines: seq<Line>, f: Fragment)
    requires Placed(text, lines) && FragmentFits(text, lines, Classes(r, lines), f, |lines|)
    ensures IsSlice(text, lines, f)
  {
    hide *;
    if f.kind == HeadingFragment {
      HeadingSlice(r, text, lines, f);
    } else {
      ParagraphSlice(text, lines, Classes(r, lines), f);
    }
  }

  lemma HeadingSlice(r: TextRules, text: string, lines: seq<Line>, f: Fragment)
    requires Placed(text, lines) && FragmentFits(text, lines, Classes(r, lines), f, |lines|) && f.kind == HeadingFragment
    ensures IsSlice(text, lines, f)
  {
    hide PathAt, ParseAtxHeading, Blank, FenceAt;
    var a := f.address.lineStart - 1;
    ClassesAt(r, lines, a);
    HeadingIsPart(r, text, lines[a]);
  }

  lemma ParagraphSlice(text: string, lines: seq<Line>, cs: seq<LineClass>, f: Fragment)
    requires |cs| == |lines| && Placed(text, lines) && FragmentFits(text, lines, cs, f, |lines|) && f.kind == ParagraphFragment
    ensures IsSlice(text, lines, f)
  {
    var a, b := f.address.lineStart - 1, f.address.lineEnd - 1;
    var p := lines[a..b + 1];
    assert f == ParagraphOf(text, f.ordinal, PathAt(Headings(cs), a), p) && lines[a].start <= lines[b].end <= |text|;
    assert lines[a].start <= lines[a].end && p[0] == lines[a] && p[|p| - 1] == lines[b];
    hide FragmentFits, PathAt, Headings, Placed;
  }

  // Spans ascend and are disjoint.
  lemma SpansAscend(r: TextRules, text: string, lines: seq<Line>, fragments: seq<Fragment>, k: nat, l: nat)
    requires Tiles(text, lines) && Covers(text, lines, Classes(r, lines), fragments, |lines|) && k < l < |fragments|
    ensures fragments[k].address.charEnd <= fragments[l].address.charStart
  {
    hide Covers, Classes, Tiles;
    Ascending(text, lines, Classes(r, lines), fragments, |lines|, k, l);
    TextIsTheSlice(r, text, lines, fragments, k);
    TextIsTheSlice(r, text, lines, fragments, l);
    TilesAreOrdered(text, lines);
    assert lines[fragments[k].address.lineEnd - 1].end <= lines[fragments[l].address.lineStart - 1].start;
  }

  // The titles over a fragment get deeper from one to the next.
  lemma PathsDescend(cs: seq<LineClass>, i: nat)
    requires i <= |cs|
    ensures PathAt(Headings(cs), i) == Texts(StackAt(Headings(cs), i)) && Increasing(StackAt(Headings(cs), i))
  {
    StackIncreases(Headings(cs), i, i);
  }

  // There are no fragments exactly when every line is blank.
  lemma NoFragmentsExactly(r: TextRules, text: string, lines: seq<Line>, fragments: seq<Fragment>)
    requires Covers(text, lines, Classes(r, lines), fragments, |lines|)
    ensures fragments == [] <==> forall i :: 0 <= i < |lines| ==> Blank(r.isSpace, lines[i].content)
  {
    var cs := Classes(r, lines);
    hide ParseAtxHeading, Blank, Classes, Covers, FragmentFits, FenceAt;
    if forall i :: 0 <= i < |lines| ==> Blank(r.isSpace, lines[i].content) {
      AllBlank(r, lines);
      if fragments != [] {
        var i := LineInUse(text, lines, cs, fragments);
      }
    } else {
      var i :| 0 <= i < |lines| && !Blank(r.isSpace, lines[i].content);
      FenceStep(r, lines, i);
      var k := SomeWithin(text, lines, cs, fragments, |lines|, i);
    }
  }

  lemma LineInUse(text: string, lines: seq<Line>, cs: seq<LineClass>, fragments: seq<Fragment>) returns (i: nat)
    requires |cs| == |lines| && Covers(text, lines, cs, fragments, |lines|) && fragments != []
    ensures i < |cs| && cs[i] != BlankLine
  {
    hide Covers, FragmentFits;
    FragmentAt(text, lines, cs, fragments, |lines|, 0);
    i := fragments[0].address.lineStart - 1;
    ClassWithin(text, lines, cs, fragments[0], |lines|, i);
  }

  lemma BlankAfterBlank(r: TextRules, lines: seq<Line>, i: nat)
    requires i < |lines| && FenceAt(r, lines, i).None? && Blank(r.isSpace, lines[i].content)
    ensures Classes(r, lines)[i] == BlankLine && FenceAt(r, lines, i + 1).None?
  {
    BlankIsNoHeading(r, lines[i]);
    hide ParseAtxHeading, Blank, FenceAt, FenceAfter, Classes;
    FenceStep(r, lines, i);
  }

  lemma NoFenceFirst(r: TextRules, lines: seq<Line>)
    ensures FenceAt(r, lines, 0).None?
  {
  }

  lemma {:induction false} NoFence(r: TextRules, lines: seq<Line>, i: nat)
    requires i <= |lines| && forall k :: 0 <= k < |lines| ==> Blank(r.isSpace, lines[k].content)
    ensures FenceAt(r, lines, i).None?
  {
    hide *;
    if i == 0 {
      NoFenceFirst(r, lines);
    } else {
      NoFence(r, lines, i - 1);
      BlankAfterBlank(r, lines, i - 1);
    }
  }

  lemma AllBlank(r: TextRules, lines: seq<Line>)
    requires forall i :: 0 <= i < |lines| ==> Blank(r.isSpace, lines[i].content)
    ensures forall i :: 0 <= i < |lines| ==> Classes(r, lines)[i] == BlankLine
  {
    hide Blank, FenceAt, Classes;
    forall i | 0 <= i < |lines| ensures Classes(r, lines)[i] == BlankLine {
      NoFence(r, lines, i);
      BlankAfterBlank(r, lines, i);
    }
  }

  lemma BlankIsNoHeading(r: TextRules, line: Line)
    requires Blank(r.isSpace, line.content)
    ensures ParseAtxHeading(r.isSpace, line).None?
  {
    if ParseAtxHeading(r.isSpace, line).Some? {
      HeadingInLine(r.isSpace, line);
    }
  }

  // ------------------------------------------- the description fixes the fragments

  // A fragment is determined by its number and its first line.
  lemma FirstLineDetermines(text: string, lines: seq<Line>, cs: seq<LineClass>, f: Fragment, g: Fragment)
    requires |cs| == |lines| && FragmentFits(text, lines, cs, f, |lines|) && FragmentFits(text, lines, cs, g, |lines|)
    requires f.ordinal == g.ordinal && f.address.lineStart == g.address.lineStart
    ensures f == g
  {
    hide PathAt, Headings;
    var a, b, c := f.address.lineStart - 1, f.address.lineEnd - 1, g.address.lineEnd - 1;
    if f.kind == ParagraphFragment {
      assert g.kind == ParagraphFragment && b == c;
    }
  }

  // The next fragment of the one list starts no later than that of the other.
  lemma StartsNoLater(
    text: string, lines: seq<Line>, cs: seq<LineClass>, a: seq<Fragment>, b: seq<Fragment>, k: nat)
    requires |cs| == |lines| && Covers(text, lines, cs, a, |lines|) && Covers(text, lines, cs, b, |lines|)
    requires k < |b| && k <= |a| && a[..k] == b[..k]
    ensures k < |a| && a[k].address.lineStart <= b[k].address.lineStart
  {
    var i := b[k].address.lineStart - 1;
    hide FragmentFits, Covers;
    FragmentAt(text, lines, cs, b, |lines|, k);
    ClassWithin(text, lines, cs, b[k], |lines|, i);
    var l := SomeWithin(text, lines, cs, a, |lines|, i);
    if l < k {
      assert a[l] == a[..k][l] == b[l];
      Ascending(text, lines, cs, b, |lines|, l, k);
    } else if k < l {
      FragmentAt(text, lines, cs, a, |lines|, k);
      Ascending(text, lines, cs, a, |lines|, k, l);
    }
  }

  lemma {:induction false} SamePrefix(
    text: string, lines: seq<Line>, cs: seq<LineClass>, a: seq<Fragment>, b: seq<Fragment>, k: nat)
    requires |cs| == |lines| && Covers(text, lines, cs, a, |lines|) && Covers(text, lines, cs, b, |lines|)
    requires k <= |a|
    ensures k <= |b| && a[..k] == b[..k]
  {
    hide FragmentFits, Covers;
    if k > 0 {
      SamePrefix(text, lines, cs, a, b, k - 1);
      StartsNoLater(text, lines, cs, b, a, k - 1);
      StartsNoLater(text, lines, cs, a, b, k - 1);
      FragmentAt(text, lines, cs, a, |lines|, k - 1);
      FragmentAt(text, lines, cs, b, |lines|, k - 1);
      FirstLineDetermines(text, lines, cs, a[k - 1], b[k - 1]);
      assert a[..k] == a[..k - 1] + [a[k - 1]] && b[..k] == b[..k - 1] + [b[k - 1]];
    }
  }

  // The parser's result is the only list of fragments that fits its description.
  lemma FragmentsAreDetermined(text: string, lines: seq<Line>, cs: seq<LineClass>, a: seq<Fragment>, b: seq<Fragment>)
    requires |cs| == |lines| && Covers(text, lines, cs, a, |lines|) && Covers(text, lines, cs, b, |lines|)
    ensures a == b
  {
    hide Covers;
    SamePrefix(text, lines, cs, a, b, |a|);
    SamePrefix(text, lines, cs, b, a, |b|);
    assert a[..|a|] == a && b[..|b|] == b;
  }
}
