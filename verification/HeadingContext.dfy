// What each line is, given the fences before it, and which headings are in force
// at a line: the parser's stack against a quadratic definition.

module HeadingContext {
  import opened Common
  import opened MarkdownLines

  datatype LineClass = HeadingLine(heading: Heading) | MemberLine | BlankLine

  // A fenced line belongs to the paragraph whatever it holds.
  function ClassIn(r: TextRules, fence: Option<Fence>, line: Line): LineClass {
    if fence.Some? then MemberLine
    else
      match ParseAtxHeading(r.isSpace, line)
      case Some(h) => HeadingLine(h)
      case None => if Blank(r.isSpace, line.content) then BlankLine else MemberLine
  }

  function FenceAfter(r: TextRules, fence: Option<Fence>, line: Line): Option<Fence> {
    match fence
    case Some(open) => if ClosingFence(line.content, open) then None else fence
    case None => if ClassIn(r, fence, line) == MemberLine then OpeningFence(line.content) else None
  }

  // The fence that is open before line `i`.
  function FenceAt(r: TextRules, lines: seq<Line>, i: nat): Option<Fence>
    requires i <= |lines|
  {
    if i == 0 then None else FenceAfter(r, FenceAt(r, lines, i - 1), lines[i - 1])
  }

  // What each line is.
  function Classes(r: TextRules, lines: seq<Line>): (cs: seq<LineClass>)
    ensures |cs| == |lines|
  {
    seq(|lines|, i requires 0 <= i < |lines| => ClassIn(r, FenceAt(r, lines, i), lines[i]))
  }

  lemma ClassesAt(r: TextRules, lines: seq<Line>, i: nat)
    requires i < |lines|
    ensures Classes(r, lines)[i] == ClassIn(r, FenceAt(r, lines, i), lines[i])
  {
    hide FenceAt, ClassIn;
  }

  datatype Title = Title(level: nat, text: string)

  function TitleOf(c: LineClass): Option<Title> {
    match c
    case HeadingLine(h) => Some(Title(h.level, h.text))
    case _ => None
  }

  // The heading on each line, if it is one.
  function Headings(cs: seq<LineClass>): (hs: seq<Option<Title>>)
    ensures |hs| == |cs| && forall i :: 0 <= i < |cs| ==> hs[i] == TitleOf(cs[i])
  {
    seq(|cs|, i requires 0 <= i < |cs| => TitleOf(cs[i]))
  }

  // ------------------------------------------------------- headings in force

  // The heading at line `j` is in force before line `i`: every later heading up
  // to there is deeper.
  predicate InForce(hs: seq<Option<Title>>, j: nat, i: nat)
    requires j < i <= |hs|
  {
    hs[j].Some? && forall k :: j < k < i && hs[k].Some? ==> hs[k].value.level > hs[j].value.level
  }

  // The headings among the first `n` lines that are in force before line `i`.
  function Titles(hs: seq<Option<Title>>, n: nat, i: nat): seq<Title>
    requires n <= i <= |hs|
  {
    if n == 0 then []
    else if InForce(hs, n - 1, i) then Titles(hs, n - 1, i) + [hs[n - 1].value]
    else Titles(hs, n - 1, i)
  }

  function StackAt(hs: seq<Option<Title>>, i: nat): seq<Title>
    requires i <= |hs|
  {
    Titles(hs, i, i)
  }

  function Texts(titles: seq<Title>): seq<string> {
    Map((t: Title) => t.text, titles)
  }

  function PathAt(hs: seq<Option<Title>>, i: nat): seq<string>
    requires i <= |hs|
  {
    Texts(StackAt(hs, i))
  }

  // ----------------------------------------------------------------- the stack

  predicate Increasing(s: seq<Title>) {
    forall i, j :: 0 <= i < j < |s| ==> s[i].level < s[j].level
  }

  predicate AllBelow(s: seq<Title>, level: nat) {
    forall t :: t in s ==> t.level < level
  }

  function Below(s: seq<Title>, level: nat): seq<Title> {
    if s == [] then []
    else Below(s[..|s| - 1], level) + (if s[|s| - 1].level < level then [s[|s| - 1]] else [])
  }

  function Popped(s: seq<Title>, level: nat): seq<Title> {
    if s == [] || s[|s| - 1].level < level then s else Popped(s[..|s| - 1], level)
  }

  method PopTo(stack: seq<Title>, level: nat) returns (s: seq<Title>)
    ensures s == Popped(stack, level)
  {
    s := stack;
    while s != [] && s[|s| - 1].level >= level
      invariant Popped(s, level) == Popped(stack, level)
      decreases |s|
    {
      s := s[..|s| - 1];
    }
  }

  lemma {:induction false} AllStay(s: seq<Title>, level: nat)
    requires AllBelow(s, level)
    ensures Below(s, level) == s
  {
    if s != [] {
      AllStay(s[..|s| - 1], level);
      assert s[|s| - 1] in s;
      assert s == s[..|s| - 1] + [s[|s| - 1]];
    }
  }

  // Levels grow along the stack, so popping from its top keeps exactly the
  // shallower headings.
  lemma {:induction false} PoppedIsBelow(s: seq<Title>, level: nat)
    requires Increasing(s)
    ensures Popped(s, level) == Below(s, level)
  {
    if s != [] {
      var front, last := s[..|s| - 1], s[|s| - 1];
      if last.level < level {
        forall t | t in s ensures t.level < level { var i :| 0 <= i < |s| && s[i] == t; }
        AllStay(s, level);
      } else {
        PoppedIsBelow(front, level);
        assert Below(front, level) + [] == Below(front, level);
      }
    }
  }

  // Headings in force have growing levels, all below any heading that follows.
  lemma {:induction false} TitlesBelow(hs: seq<Option<Title>>, n: nat, i: nat, k: nat)
    requires n <= k < i <= |hs| && hs[k].Some?
    ensures AllBelow(Titles(hs, n, i), hs[k].value.level)
  {
    if n > 0 { TitlesBelow(hs, n - 1, i, k); }
  }

  lemma {:induction false} StackIncreases(hs: seq<Option<Title>>, n: nat, i: nat)
    requires n <= i <= |hs|
    ensures Increasing(Titles(hs, n, i))
  {
    if n > 0 {
      StackIncreases(hs, n - 1, i);
      hide Increasing;
      if InForce(hs, n - 1, i) {
        TitlesBelow(hs, n - 1, i, n - 1);
        IncreasingSnoc(Titles(hs, n - 1, i), hs[n - 1].value);
      }
    }
  }

  lemma IncreasingSnoc(s: seq<Title>, t: Title)
    requires Increasing(s) && AllBelow(s, t.level)
    ensures Increasing(s + [t])
  {
    var more := s + [t];
    forall i, j | 0 <= i < j < |more| ensures more[i].level < more[j].level {
      assert more[i] == s[i] && s[i] in s;
    }
  }

  lemma InForceLonger(hs: seq<Option<Title>>, j: nat, i: nat)
    requires j < i < |hs|
    ensures InForce(hs, j, i + 1) <==> InForce(hs, j, i) && (hs[i].Some? ==> hs[j].value.level < hs[i].value.level)
  {
  }

  lemma BelowSnoc(s: seq<Title>, t: Title, level: nat)
    ensures Below(s + [t], level) == if t.level < level then Below(s, level) + [t] else Below(s, level)
  {
    assert (s + [t])[..|s|] == s;
    assert Below(s, level) + [] == Below(s, level);
  }

  lemma {:induction false} TitlesAfterHeading(hs: seq<Option<Title>>, n: nat, i: nat)
    requires n <= i < |hs| && hs[i].Some?
    ensures Titles(hs, n, i + 1) == Below(Titles(hs, n, i), hs[i].value.level)
  {
    if n > 0 {
      TitlesAfterHeading(hs, n - 1, i);
      InForceLonger(hs, n - 1, i);
      if InForce(hs, n - 1, i) { BelowSnoc(Titles(hs, n - 1, i), hs[n - 1].value, hs[i].value.level); }
    }
  }

  lemma {:induction false} TitlesUnchanged(hs: seq<Option<Title>>, n: nat, i: nat)
    requires n <= i < |hs| && hs[i].None?
    ensures Titles(hs, n, i + 1) == Titles(hs, n, i)
  {
    if n > 0 {
      TitlesUnchanged(hs, n - 1, i);
      InForceLonger(hs, n - 1, i);
    }
  }

  // The stack that the parser keeps is the headings in force.
  lemma StackStep(hs: seq<Option<Title>>, i: nat)
    requires i < |hs|
    ensures
      StackAt(hs, i + 1) ==
      match hs[i] case Some(t) => Popped(StackAt(hs, i), t.level) + [t] case None => StackAt(hs, i)
  {
    assert InForce(hs, i, i + 1) <==> hs[i].Some?;
    if hs[i].Some? {
      TitlesAfterHeading(hs, i, i);
      StackIncreases(hs, i, i);
      PoppedIsBelow(StackAt(hs, i), hs[i].value.level);
    } else {
      TitlesUnchanged(hs, i, i);
    }
  }

  lemma {:induction false} StackSteady(hs: seq<Option<Title>>, from: nat, to: nat)
    requires from <= to <= |hs| && forall k :: from <= k < to ==> hs[k].None?
    ensures StackAt(hs, to) == StackAt(hs, from)
  {
    hide StackAt;
    if from < to {
      StackSteady(hs, from, to - 1);
      StackStep(hs, to - 1);
    }
  }

  // Every title on the stack is the text of an earlier heading line.
  lemma {:induction false} TitlesAreHeadings(hs: seq<Option<Title>>, n: nat, i: nat, t: Title)
    requires n <= i <= |hs| && t in Titles(hs, n, i)
    ensures Some(t) in hs[..n]
  {
    if InForce(hs, n - 1, i) && t == hs[n - 1].value {
      assert hs[..n][n - 1] == Some(t);
    } else {
      TitlesAreHeadings(hs, n - 1, i, t);
      assert hs[..n] == hs[..n - 1] + [hs[n - 1]];
    }
  }
}
