// The text of a unit, character by character: which characters of the text nodes
// it holds, in which order, and where it has spaces.

module XmlUnitText {
  import opened Common
  import opened XmlTree
  import opened XmlPaths
  import opened XmlText

  // A position in a text node, counted in document order.
  datatype Position = Position(part: nat, offset: nat)

  predicate Ahead(p: Position, q: Position) {
    p.part < q.part || (p.part == q.part && p.offset < q.offset)
  }

  predicate In(parts: seq<string>, p: Position) {
    p.part < |parts| && p.offset < |parts[p.part]|
  }

  predicate Visible(isSpace: char -> bool, parts: seq<string>, p: Position) {
    In(parts, p) && !isSpace(parts[p.part][p.offset])
  }

  // White space lies between two positions, or a boundary that counts as such.
  ghost predicate Apart(isSpace: char -> bool, parts: seq<string>, separate: bool, p: Position, q: Position) {
    (separate && p.part < q.part) ||
    exists w :: In(parts, w) && Ahead(p, w) && Ahead(w, q) && isSpace(parts[w.part][w.offset])
  }

  // The character at `from` in the text nodes stands at `to` in the unit's text.
  datatype Link = Link(from: Position, to: nat)

  ghost predicate LinksFit(isSpace: char -> bool, parts: seq<string>, text: string, links: seq<Link>) {
    forall k :: 0 <= k < |links| ==>
      Visible(isSpace, parts, links[k].from) && links[k].to < |text| &&
      text[links[k].to] == parts[links[k].from.part][links[k].from.offset]
  }

  ghost predicate AllLinked(isSpace: char -> bool, parts: seq<string>, links: seq<Link>) {
    forall p :: Visible(isSpace, parts, p) ==> exists k :: 0 <= k < |links| && links[k].from == p
  }

  // Neighbours stay neighbours, or get one space between them.
  ghost predicate Neighbours(isSpace: char -> bool, parts: seq<string>, separate: bool, text: string, a: Link, b: Link) {
    Ahead(a.from, b.from) &&
    if Apart(isSpace, parts, separate, a.from, b.from)
    then b.to == a.to + 2 && a.to + 1 < |text| && text[a.to + 1] == ' '
    else b.to == a.to + 1
  }

  // `text` holds the visible characters of the parts, each once and in order, one
  // space wherever two of them stood apart, and nothing else.
  ghost predicate Collapses(isSpace: char -> bool, parts: seq<string>, separate: bool, text: string) {
    exists links :: Linked(isSpace, parts, separate, text, links)
  }

  ghost predicate Linked(isSpace: char -> bool, parts: seq<string>, separate: bool, text: string, links: seq<Link>) {
    LinksFit(isSpace, parts, text, links) && AllLinked(isSpace, parts, links) &&
    (forall k :: 0 < k < |links| ==> Neighbours(isSpace, parts, separate, text, links[k - 1], links[k])) &&
    if links == [] then text == "" else links[0].to == 0 && links[|links| - 1].to == |text| - 1
  }

  // --------------------------------------------------------------- one string

  datatype Pair = Pair(from: nat, to: nat)

  ghost predicate SpaceBetween(isSpace: char -> bool, s: string, i: nat, j: nat) {
    exists k :: i < k < j && k < |s| && isSpace(s[k])
  }

  ghost predicate Next(isSpace: char -> bool, s: string, t: string, a: Pair, b: Pair) {
    a.from < b.from &&
    if SpaceBetween(isSpace, s, a.from, b.from)
    then b.to == a.to + 2 && a.to + 1 < |t| && t[a.to + 1] == ' '
    else b.to == a.to + 1
  }

  ghost predicate PairFits(isSpace: char -> bool, s: string, t: string, p: Pair) {
    p.from < |s| && !isSpace(s[p.from]) && p.to < |t| && t[p.to] == s[p.from]
  }

  ghost predicate PairedWith(ps: seq<Pair>, i: int) {
    exists k :: 0 <= k < |ps| && ps[k].from == i
  }

  ghost predicate EachFits(isSpace: char -> bool, s: string, t: string, ps: seq<Pair>) {
    forall k :: 0 <= k < |ps| ==> PairFits(isSpace, s, t, ps[k])
  }

  ghost predicate AllPaired(isSpace: char -> bool, s: string, ps: seq<Pair>) {
    forall i :: 0 <= i < |s| && !isSpace(s[i]) ==> PairedWith(ps, i)
  }

  ghost predicate EachNext(isSpace: char -> bool, s: string, t: string, ps: seq<Pair>) {
    forall k :: 0 < k < |ps| ==> Next(isSpace, s, t, ps[k - 1], ps[k])
  }

  predicate Spans(t: string, ps: seq<Pair>) {
    if ps == [] then t == "" else ps[0].to == 0 && ps[|ps| - 1].to == |t| - 1
  }

  ghost predicate Paired(isSpace: char -> bool, s: string, t: string, ps: seq<Pair>) {
    EachFits(isSpace, s, t, ps) && AllPaired(isSpace, s, ps) && EachNext(isSpace, s, t, ps) && Spans(t, ps)
  }

  function Shift(ps: seq<Pair>, d: nat, e: nat): (r: seq<Pair>)
    ensures |r| == |ps| && forall k :: 0 <= k < |ps| ==> r[k] == Pair(ps[k].from + d, ps[k].to + e)
  {
    seq(|ps|, k requires 0 <= k < |ps| => Pair(ps[k].from + d, ps[k].to + e))
  }

  // Text behind a prefix: the pairs move along.
  lemma ShiftFits(isSpace: char -> bool, a: string, s: string, b: string, t: string, p: Pair)
    requires PairFits(isSpace, s, t, p)
    ensures PairFits(isSpace, a + s, b + t, Pair(p.from + |a|, p.to + |b|))
  {
  }

  lemma ShiftBetween(isSpace: char -> bool, a: string, s: string, i: nat, j: nat)
    ensures SpaceBetween(isSpace, a + s, i + |a|, j + |a|) <==> SpaceBetween(isSpace, s, i, j)
  {
    var u := a + s;
    if k :| i + |a| < k < j + |a| && k < |u| && isSpace(u[k]) { assert s[k - |a|] == u[k]; }
    if k :| i < k < j && k < |s| && isSpace(s[k]) { assert u[k + |a|] == s[k]; }
  }

  lemma ShiftNext(isSpace: char -> bool, a: string, s: string, b: string, t: string, p: Pair, q: Pair)
    requires Next(isSpace, s, t, p, q)
    ensures Next(isSpace, a + s, b + t, Pair(p.from + |a|, p.to + |b|), Pair(q.from + |a|, q.to + |b|))
  {
    ShiftBetween(isSpace, a, s, p.from, q.from);
    hide SpaceBetween;
  }

  lemma EachShifts(isSpace: char -> bool, a: string, s: string, b: string, t: string, ps: seq<Pair>)
    requires EachFits(isSpace, s, t, ps) && EachNext(isSpace, s, t, ps)
    ensures EachFits(isSpace, a + s, b + t, Shift(ps, |a|, |b|)) && EachNext(isSpace, a + s, b + t, Shift(ps, |a|, |b|))
  {
    var qs := Shift(ps, |a|, |b|);
    hide PairFits, Next;
    forall k | 0 <= k < |qs| ensures PairFits(isSpace, a + s, b + t, qs[k]) { ShiftFits(isSpace, a, s, b, t, ps[k]); }
    forall k | 0 < k < |qs| ensures Next(isSpace, a + s, b + t, qs[k - 1], qs[k]) {
      ShiftNext(isSpace, a, s, b, t, ps[k - 1], ps[k]);
    }
  }

  lemma AllPairedBehindSpace(isSpace: char -> bool, c: char, s: string, ps: seq<Pair>)
    requires isSpace(c) && AllPaired(isSpace, s, ps)
    ensures AllPaired(isSpace, [c] + s, Shift(ps, 1, 0))
  {
    var u := [c] + s;
    hide PairedWith;
    forall i | 0 <= i < |u| && !isSpace(u[i]) ensures PairedWith(Shift(ps, 1, 0), i) {
      assert u[i] == s[i - 1];
      ShiftedPair(ps, i - 1, 1, 0);
    }
  }

  lemma SpacePrepended(isSpace: char -> bool, c: char, s: string, t: string, ps: seq<Pair>)
    requires isSpace(c) && Paired(isSpace, s, t, ps)
    ensures Paired(isSpace, [c] + s, t, Shift(ps, 1, 0))
  {
    assert "" + t == t;
    hide EachFits, EachNext, AllPaired;
    EachShifts(isSpace, [c], s, "", t, ps);
    AllPairedBehindSpace(isSpace, c, s, ps);
  }

  lemma ShiftedPair(ps: seq<Pair>, i: int, d: nat, e: nat)
    requires PairedWith(ps, i)
    ensures PairedWith(Shift(ps, d, e), i + d)
  {
    var k :| 0 <= k < |ps| && ps[k].from == i;
    assert Shift(ps, d, e)[k].from == i + d;
  }

  function Own(w: string): (r: seq<Pair>)
    ensures |r| == |w| && forall k :: 0 <= k < |w| ==> r[k] == Pair(k, k)
  {
    seq(|w|, k requires 0 <= k < |w| => Pair(k, k))
  }

  predicate Word(isSpace: char -> bool, w: string) {
    w != "" && forall i :: 0 <= i < |w| ==> !isSpace(w[i])
  }

  lemma OwnFits(isSpace: char -> bool, w: string, s: string, t: string)
    requires Word(isSpace, w)
    ensures forall k :: 0 <= k < |w| ==> PairFits(isSpace, w + s, w + t, Pair(k, k))
    ensures forall k :: 0 < k < |w| ==> Next(isSpace, w + s, w + t, Pair(k - 1, k - 1), Pair(k, k))
  {
  }

  lemma LastWord(isSpace: char -> bool, w: string, s: string)
    requires Word(isSpace, w) && Paired(isSpace, s, "", [])
    ensures Paired(isSpace, w + s, w, Own(w))
  {
    OwnFits(isSpace, w, s, "");
    assert w + "" == w;
    assert forall j :: 0 <= j < |s| ==> isSpace(s[j]) by {
      forall j | 0 <= j < |s| ensures isSpace(s[j]) { assert !PairedWith([], j); }
    }
    hide PairFits, Next;
    forall i | 0 <= i < |w + s| && !isSpace((w + s)[i]) ensures PairedWith(Own(w), i) { assert Own(w)[i].from == i; }
  }

  lemma EachJoined(isSpace: char -> bool, u: string, v: string, a: seq<Pair>, b: seq<Pair>)
    requires EachFits(isSpace, u, v, a) && EachFits(isSpace, u, v, b) && a != [] && b != []
    requires EachNext(isSpace, u, v, a) && EachNext(isSpace, u, v, b) && Next(isSpace, u, v, a[|a| - 1], b[0])
    ensures EachFits(isSpace, u, v, a + b) && EachNext(isSpace, u, v, a + b)
  {
    var all := a + b;
    hide PairFits, Next;
    forall k | 0 < k < |all| ensures Next(isSpace, u, v, all[k - 1], all[k]) {
      if k > |a| { assert Next(isSpace, u, v, b[k - 1 - |a|], b[k - |a|]); }
    }
  }

  lemma WordPrepended(isSpace: char -> bool, w: string, s: string, t: string, ps: seq<Pair>)
    requires Word(isSpace, w) && s != "" && isSpace(s[0]) && Paired(isSpace, s, t, ps) && ps != []
    ensures Paired(isSpace, w + s, w + " " + t, Own(w) + Shift(ps, |w|, |w| + 1))
  {
    hide *;
    var x := w + " ";
    assert x + t == w + (" " + t) && |x| == |w| + 1;
    PairedParts(isSpace, s, t, ps);
    OwnEach(isSpace, w, s, " " + t);
    FirstBehind(isSpace, w, s, t, ps[0]);
    EachShifts(isSpace, w, s, x, t, ps);
    EachJoined(isSpace, w + s, x + t, Own(w), Shift(ps, |w|, |x|));
    AllPairedBehindWord(isSpace, w, s, ps);
    WordSpans(w, t, ps);
    PartsPaired(isSpace, w + s, x + t, Own(w) + Shift(ps, |w|, |x|));
  }

  lemma PairedParts(isSpace: char -> bool, s: string, t: string, ps: seq<Pair>)
    requires Paired(isSpace, s, t, ps)
    ensures EachFits(isSpace, s, t, ps) && AllPaired(isSpace, s, ps) && EachNext(isSpace, s, t, ps) && Spans(t, ps)
    ensures ps != [] ==> PairFits(isSpace, s, t, ps[0]) && ps[0].to == 0
  {
  }

  lemma PartsPaired(isSpace: char -> bool, s: string, t: string, ps: seq<Pair>)
    requires EachFits(isSpace, s, t, ps) && AllPaired(isSpace, s, ps) && EachNext(isSpace, s, t, ps) && Spans(t, ps)
    ensures Paired(isSpace, s, t, ps)
  {
  }

  lemma WordSpans(w: string, t: string, ps: seq<Pair>)
    requires Spans(t, ps) && ps != [] && w != ""
    ensures Spans(w + " " + t, Own(w) + Shift(ps, |w|, |w| + 1))
  {
  }

  lemma OwnEach(isSpace: char -> bool, w: string, s: string, t: string)
    requires Word(isSpace, w)
    ensures EachFits(isSpace, w + s, w + t, Own(w)) && EachNext(isSpace, w + s, w + t, Own(w)) && w != ""
  {
    OwnFits(isSpace, w, s, t);
    hide PairFits, Next;
  }

  lemma AllPairedBehindWord(isSpace: char -> bool, w: string, s: string, ps: seq<Pair>)
    requires AllPaired(isSpace, s, ps)
    ensures AllPaired(isSpace, w + s, Own(w) + Shift(ps, |w|, |w| + 1))
  {
    hide PairedWith;
    forall i | 0 <= i < |w + s| && !isSpace((w + s)[i]) ensures PairedWith(Own(w) + Shift(ps, |w|, |w| + 1), i) {
      PairedInEither(isSpace, w, s, ps, i);
    }
  }

  lemma FirstBehind(isSpace: char -> bool, w: string, s: string, t: string, p: Pair)
    requires w != "" && s != "" && isSpace(s[0]) && PairFits(isSpace, s, t, p) && p.to == 0
    ensures Next(isSpace, w + s, w + " " + t, Pair(|w| - 1, |w| - 1), Pair(p.from + |w|, p.to + |w| + 1))
  {
    assert p.from > 0 && (w + s)[|w|] == s[0];
    assert SpaceBetween(isSpace, w + s, |w| - 1, p.from + |w|);
    assert (w + " " + t)[|w|] == ' ';
  }

  lemma PairedInEither(isSpace: char -> bool, w: string, s: string, ps: seq<Pair>, i: nat)
    requires i < |w + s| && !isSpace((w + s)[i])
    requires forall j :: 0 <= j < |s| && !isSpace(s[j]) ==> PairedWith(ps, j)
    ensures PairedWith(Own(w) + Shift(ps, |w|, |w| + 1), i)
  {
    var all := Own(w) + Shift(ps, |w|, |w| + 1);
    if i < |w| {
      assert all[i].from == i;
    } else {
      assert !isSpace(s[i - |w|]);
      var k :| 0 <= k < |ps| && ps[k].from == i - |w|;
      assert all[|w| + k].from == i;
    }
  }

  // Splitting at white space and joining with single spaces.
  lemma {:induction false} FieldsPair(isSpace: char -> bool, s: string) returns (ps: seq<Pair>)
    ensures Paired(isSpace, s, Join(" ", Fields(isSpace, s)), ps)
    decreases |s|
  {
    if s == "" {
      ps := [];
    } else if isSpace(s[0]) {
      var rest := FieldsPair(isSpace, s[1..]);
      hide Paired;
      assert s == [s[0]] + s[1..];
      SpacePrepended(isSpace, s[0], s[1..], Join(" ", Fields(isSpace, s[1..])), rest);
      ps := Shift(rest, 1, 0);
    } else {
      var n := RunLength(isSpace, s);
      var w, rest := s[..n], s[n..];
      assert s == w + rest && Word(isSpace, w);
      var after := Fields(isSpace, rest);
      FieldsStep(isSpace, s);
      hide Fields, RunLength;
      var others := FieldsPair(isSpace, rest);
      if others == [] {
        NoPairs(isSpace, rest, after);
        LastWord(isSpace, w, rest);
        ps := Own(w);
      } else {
        SomePairs(isSpace, rest, after, others);
        hide Paired;
        WordPrepended(isSpace, w, rest, Join(" ", after), others);
        ps := Own(w) + Shift(others, |w|, |w| + 1);
      }
    }
  }

  lemma FieldsStep(isSpace: char -> bool, s: string)
    requires s != "" && !isSpace(s[0])
    ensures
      var n := RunLength(isSpace, s);
      n > 0 && Fields(isSpace, s) == [s[..n]] + Fields(isSpace, s[n..])
  {
  }

  lemma NoPairs(isSpace: char -> bool, s: string, fields: seq<string>)
    requires fields == Fields(isSpace, s) && Paired(isSpace, s, Join(" ", fields), [])
    ensures Join(" ", fields) == "" && fields == []
  {
    FieldsOfBlank(isSpace, s);
    if fields != [] { FirstFieldShows(isSpace, fields); }
  }

  lemma SomePairs(isSpace: char -> bool, s: string, fields: seq<string>, ps: seq<Pair>)
    requires fields == Fields(isSpace, s) && Paired(isSpace, s, Join(" ", fields), ps) && ps != []
    ensures fields != [] && s != ""
  {
    assert PairFits(isSpace, s, Join(" ", fields), ps[0]);
  }

  // ------------------------------------------------------- several text nodes

  function Separator(separate: bool): string { if separate then " " else "" }

  // A place in the joined text: in a text node, or on the boundary behind one.
  predicate Slot(parts: seq<string>, separate: bool, p: Position) {
    p.part < |parts| &&
    (p.offset < |parts[p.part]| || (separate && p.part + 1 < |parts| && p.offset == |parts[p.part]|))
  }

  function Index(parts: seq<string>, separate: bool, p: Position): nat
    requires p.part < |parts|
    decreases p.part
  {
    if p.part == 0 then p.offset
    else |parts[0]| + |Separator(separate)| + Index(parts[1..], separate, Position(p.part - 1, p.offset))
  }

  function Locate(parts: seq<string>, separate: bool, i: nat): Position
    decreases |parts|
  {
    if parts == [] then Position(0, 0)
    else
      var first := |parts[0]| + (if |parts| > 1 then |Separator(separate)| else 0);
      if i < first then Position(0, i)
      else
        var p := Locate(parts[1..], separate, i - first);
        Position(p.part + 1, p.offset)
  }

  lemma JoinStep(parts: seq<string>, separate: bool)
    requires |parts| > 1
    ensures
      var sep, rest := Separator(separate), Join(Separator(separate), parts[1..]);
      Join(sep, parts) == parts[0] + sep + rest
  {
  }

  lemma {:induction false} IndexAt(parts: seq<string>, separate: bool, p: Position)
    requires Slot(parts, separate, p)
    ensures
      var joined, i := Join(Separator(separate), parts), Index(parts, separate, p);
      i < |joined| && joined[i] == if In(parts, p) then parts[p.part][p.offset] else ' '
    decreases p.part
  {
    if |parts| > 1 {
      JoinStep(parts, separate);
      if p.part > 0 {
        IndexAt(parts[1..], separate, Position(p.part - 1, p.offset));
        hide Join;
      }
    }
  }

  lemma {:induction false} LocateAt(parts: seq<string>, separate: bool, i: nat)
    requires i < |Join(Separator(separate), parts)|
    ensures
      var p := Locate(parts, separate, i);
      Slot(parts, separate, p) && Index(parts, separate, p) == i
    decreases |parts|
  {
    if |parts| > 1 {
      JoinStep(parts, separate);
      var first := |parts[0]| + |Separator(separate)|;
      if i >= first {
        hide Join;
        LocateAt(parts[1..], separate, i - first);
      }
    }
  }

  lemma {:induction false} IndexOrder(parts: seq<string>, separate: bool, p: Position, q: Position)
    requires Slot(parts, separate, p) && Slot(parts, separate, q) && Ahead(p, q)
    ensures Index(parts, separate, p) < Index(parts, separate, q)
    decreases p.part
  {
    if p.part > 0 {
      IndexOrder(parts[1..], separate, Position(p.part - 1, p.offset), Position(q.part - 1, q.offset));
    }
  }

  lemma IndexReflects(parts: seq<string>, separate: bool, p: Position, q: Position)
    requires Slot(parts, separate, p) && Slot(parts, separate, q)
    ensures Index(parts, separate, p) < Index(parts, separate, q) <==> Ahead(p, q)
    ensures Index(parts, separate, p) == Index(parts, separate, q) ==> p == q
  {
    hide Index, Slot;
    if Ahead(p, q) {
      IndexOrder(parts, separate, p, q);
    } else if Ahead(q, p) {
      IndexOrder(parts, separate, q, p);
    }
  }

  lemma InIsSlot(parts: seq<string>, separate: bool, p: Position)
    requires In(parts, p)
    ensures Slot(parts, separate, p)
  {
  }

  lemma ApartBySpace(isSpace: char -> bool, parts: seq<string>, separate: bool, p: Position, q: Position, w: Position)
    requires In(parts, p) && In(parts, q) && Slot(parts, separate, w) && Ahead(p, w) && Ahead(w, q)
    requires In(parts, w) ==> isSpace(parts[w.part][w.offset])
    ensures Apart(isSpace, parts, separate, p, q)
  {
  }

  // White space between two visible characters of the joined text.
  lemma ApartExactly(isSpace: char -> bool, parts: seq<string>, separate: bool, p: Position, q: Position)
    requires isSpace(' ') && In(parts, p) && In(parts, q)
    ensures
      SpaceBetween(isSpace, Join(Separator(separate), parts), Index(parts, separate, p), Index(parts, separate, q)) <==>
      Apart(isSpace, parts, separate, p, q)
  {
    var joined := Join(Separator(separate), parts);
    var i, j := Index(parts, separate, p), Index(parts, separate, q);
    hide Join, Index, Locate;
    if k: nat :| i < k < j && k < |joined| && isSpace(joined[k]) {
      var w := Locate(parts, separate, k);
      LocateAt(parts, separate, k);
      IndexAt(parts, separate, w);
      IndexReflects(parts, separate, p, w);
      IndexReflects(parts, separate, w, q);
      ApartBySpace(isSpace, parts, separate, p, q, w);
    }
    if Apart(isSpace, parts, separate, p, q) {
      var w := SpaceApart(isSpace, parts, separate, p, q);
      IndexAt(parts, separate, w);
      IndexReflects(parts, separate, p, w);
      IndexReflects(parts, separate, w, q);
    }
  }

  lemma SpaceApart(isSpace: char -> bool, parts: seq<string>, separate: bool, p: Position, q: Position) returns (w: Position)
    requires Apart(isSpace, parts, separate, p, q) && In(parts, p) && In(parts, q)
    ensures Slot(parts, separate, w) && Ahead(p, w) && Ahead(w, q) && (In(parts, w) ==> isSpace(parts[w.part][w.offset]))
  {
    if separate && p.part < q.part {
      w := Position(p.part, |parts[p.part]|);
    } else {
      w :| In(parts, w) && Ahead(p, w) && Ahead(w, q) && isSpace(parts[w.part][w.offset]);
    }
  }

  function Links(parts: seq<string>, separate: bool, ps: seq<Pair>): (r: seq<Link>)
    ensures |r| == |ps| && forall k :: 0 <= k < |ps| ==> r[k] == Link(Locate(parts, separate, ps[k].from), ps[k].to)
  {
    seq(|ps|, k requires 0 <= k < |ps| => Link(Locate(parts, separate, ps[k].from), ps[k].to))
  }

  lemma PlaceOf(isSpace: char -> bool, parts: seq<string>, separate: bool, text: string, p: Pair)
    requires isSpace(' ') && PairFits(isSpace, Join(Separator(separate), parts), text, p)
    ensures
      var q := Locate(parts, separate, p.from);
      Visible(isSpace, parts, q) && Index(parts, separate, q) == p.from && p.to < |text| && text[p.to] == parts[q.part][q.offset]
  {
    hide Join, Index, Locate;
    LocateAt(parts, separate, p.from);
    IndexAt(parts, separate, Locate(parts, separate, p.from));
  }

  lemma PlacedNext(isSpace: char -> bool, parts: seq<string>, separate: bool, text: string, a: Pair, b: Pair)
    requires isSpace(' ')
    requires var joined := Join(Separator(separate), parts);
             PairFits(isSpace, joined, text, a) && PairFits(isSpace, joined, text, b) && Next(isSpace, joined, text, a, b)
    ensures
      Neighbours(isSpace, parts, separate, text,
                 Link(Locate(parts, separate, a.from), a.to), Link(Locate(parts, separate, b.from), b.to))
  {
    var p, q := Locate(parts, separate, a.from), Locate(parts, separate, b.from);
    hide Join, Index, Locate, Apart, SpaceBetween, PairFits;
    PlaceOf(isSpace, parts, separate, text, a);
    PlaceOf(isSpace, parts, separate, text, b);
    InIsSlot(parts, separate, p);
    InIsSlot(parts, separate, q);
    IndexReflects(parts, separate, p, q);
    ApartExactly(isSpace, parts, separate, p, q);
  }

  lemma EveryPlace(isSpace: char -> bool, parts: seq<string>, separate: bool, ps: seq<Pair>, p: Position)
    requires AllPaired(isSpace, Join(Separator(separate), parts), ps) && Visible(isSpace, parts, p)
    requires forall k :: 0 <= k < |ps| ==> ps[k].from < |Join(Separator(separate), parts)|
    ensures exists k :: 0 <= k < |ps| && Links(parts, separate, ps)[k].from == p
  {
    hide Join, Index, Locate;
    var i := Index(parts, separate, p);
    IndexAt(parts, separate, p);
    assert PairedWith(ps, i);
    var k :| 0 <= k < |ps| && ps[k].from == i;
    LocateAt(parts, separate, i);
    IndexReflects(parts, separate, p, Locate(parts, separate, i));
    assert Links(parts, separate, ps)[k].from == p;
  }

  lemma PairsFit(isSpace: char -> bool, parts: seq<string>, separate: bool, text: string, ps: seq<Pair>)
    requires isSpace(' ') && EachFits(isSpace, Join(Separator(separate), parts), text, ps)
    ensures LinksFit(isSpace, parts, text, Links(parts, separate, ps))
  {
    var joined, links := Join(Separator(separate), parts), Links(parts, separate, ps);
    hide Join, Locate, Index, PairFits;
    forall k | 0 <= k < |links| ensures PairFits(isSpace, joined, text, ps[k]) {}
    forall k | 0 <= k < |links|
      ensures Visible(isSpace, parts, links[k].from) && In(parts, links[k].from) && links[k].to < |text| &&
              text[links[k].to] == parts[links[k].from.part][links[k].from.offset]
    {
      PlaceOf(isSpace, parts, separate, text, ps[k]);
    }
  }

  lemma PairsNext(isSpace: char -> bool, parts: seq<string>, separate: bool, text: string, ps: seq<Pair>)
    requires isSpace(' ') && EachFits(isSpace, Join(Separator(separate), parts), text, ps)
    requires EachNext(isSpace, Join(Separator(separate), parts), text, ps)
    ensures
      var links := Links(parts, separate, ps);
      forall k :: 0 < k < |links| ==> Neighbours(isSpace, parts, separate, text, links[k - 1], links[k])
  {
    var links := Links(parts, separate, ps);
    hide Join, Locate, Neighbours, Next, PairFits;
    forall k | 0 < k < |links| ensures Neighbours(isSpace, parts, separate, text, links[k - 1], links[k]) {
      PlacedNext(isSpace, parts, separate, text, ps[k - 1], ps[k]);
    }
  }

  lemma PairsAllLinked(isSpace: char -> bool, parts: seq<string>, separate: bool, text: string, ps: seq<Pair>)
    requires EachFits(isSpace, Join(Separator(separate), parts), text, ps)
    requires AllPaired(isSpace, Join(Separator(separate), parts), ps)
    ensures AllLinked(isSpace, parts, Links(parts, separate, ps))
  {
    hide Join, Locate, AllPaired, Visible;
    forall p | Visible(isSpace, parts, p) ensures exists k :: 0 <= k < |ps| && Links(parts, separate, ps)[k].from == p {
      EveryPlace(isSpace, parts, separate, ps, p);
    }
  }

  lemma PairsLink(isSpace: char -> bool, parts: seq<string>, separate: bool, text: string, ps: seq<Pair>)
    requires isSpace(' ') && Paired(isSpace, Join(Separator(separate), parts), text, ps)
    ensures Linked(isSpace, parts, separate, text, Links(parts, separate, ps))
  {
    hide Join, Locate, Neighbours, Visible, EachFits, EachNext, AllPaired, LinksFit, AllLinked;
    PairsFit(isSpace, parts, separate, text, ps);
    PairsNext(isSpace, parts, separate, text, ps);
    PairsAllLinked(isSpace, parts, separate, text, ps);
  }

  // ------------------------------------------------------------- the unit's text

  lemma StripLeftIs(isSpace: char -> bool, s: string) returns (before: string)
    ensures s == before + StripLeft(isSpace, s) && Blank(isSpace, before)
    ensures StripLeft(isSpace, s) != "" ==> !isSpace(StripLeft(isSpace, s)[0])
  {
    if s != "" && isSpace(s[0]) {
      var more := StripLeftIs(isSpace, s[1..]);
      before := [s[0]] + more;
    } else {
      before := "";
    }
  }

  lemma StripRightIs(isSpace: char -> bool, s: string) returns (after: string)
    ensures s == StripRight(isSpace, s) + after && Blank(isSpace, after)
    ensures var t := StripRight(isSpace, s); t != "" ==> !isSpace(t[|t| - 1])
  {
    if s != "" && isSpace(s[|s| - 1]) {
      var more := StripRightIs(isSpace, s[..|s| - 1]);
      after := more + [s[|s| - 1]];
    } else {
      after := "";
    }
  }

  // `text` is `s` without the white space at its ends.
  ghost predicate Stripped(isSpace: char -> bool, s: string, text: string) {
    (text != "" ==> !isSpace(text[0]) && !isSpace(text[|text| - 1])) &&
    exists before, after ::
      s == before + text + after && (forall c :: c in before ==> isSpace(c)) && forall c :: c in after ==> isSpace(c)
  }

  lemma StripExactly(isSpace: char -> bool, s: string)
    ensures Stripped(isSpace, s, Strip(isSpace, s))
  {
    var left := StripLeft(isSpace, s);
    var text := StripRight(isSpace, left);
    hide StripLeft, StripRight;
    var before := StripLeftIs(isSpace, s);
    var after := StripRightIs(isSpace, left);
    assert s == before + text + after;
    if text != "" { assert text[0] == left[0]; }
  }

  // A block's text is the collapse of its text nodes, composed and stripped. Only
  // tables and definition lists separate what their text nodes hold.
  lemma BlockTextExactly(r: TextRules, kinds: Kinds, e: Elem, parts: seq<string>)
    requires r.isSpace(' ') && |parts| == |Texts(e)| && forall i :: 0 <= i < |parts| ==> parts[i] == Texts(e)[i].text
    ensures
      var separate := Local(e) in kinds && (kinds[Local(e)] == "table" || kinds[Local(e)] == "definition_list");
      exists t :: Collapses(r.isSpace, parts, separate, t) && Stripped(r.isSpace, r.nfc(t), BlockText(r, kinds, e))
  {
    hide Texts;
    assert Map(TextOf, Texts(e)) == parts;
    var separate := Local(e) in kinds && (kinds[Local(e)] == "table" || kinds[Local(e)] == "definition_list");
    var t := Join(" ", Fields(r.isSpace, Join(Separator(separate), parts)));
    var ps := FieldsPair(r.isSpace, Join(Separator(separate), parts));
    assert BlockText(r, kinds, e) == Strip(r.isSpace, r.nfc(t));
    hide Join, Fields, BlockText, Strip;
    PairsLink(r.isSpace, parts, separate, t, ps);
    assert Collapses(r.isSpace, parts, separate, t);
    StripExactly(r.isSpace, r.nfc(t));
  }

  // ---------------------------------------------------------- no other text

  lemma {:induction false} LinksAscend(
    isSpace: char -> bool, parts: seq<string>, separate: bool, text: string, links: seq<Link>, a: nat, b: nat)
    requires Linked(isSpace, parts, separate, text, links) && a < b < |links|
    ensures Ahead(links[a].from, links[b].from)
    decreases b
  {
    hide LinksFit, AllLinked, Apart;
    assert Neighbours(isSpace, parts, separate, text, links[b - 1], links[b]);
    if a < b - 1 { LinksAscend(isSpace, parts, separate, text, links, a, b - 1); }
  }

  // The k-th visible position is no later in one list than in the other.
  lemma NoLater(
    isSpace: char -> bool, parts: seq<string>, separate: bool, t: string, a: seq<Link>, u: string, b: seq<Link>, k: nat)
    requires Linked(isSpace, parts, separate, t, a) && Linked(isSpace, parts, separate, u, b)
    requires k < |b| && k <= |a| && forall j :: 0 <= j < k ==> a[j].from == b[j].from
    ensures k < |a| && (a[k].from == b[k].from || Ahead(a[k].from, b[k].from))
  {
    hide Apart, Neighbours;
    assert Visible(isSpace, parts, b[k].from);
    var j :| 0 <= j < |a| && a[j].from == b[k].from;
    hide LinksFit, AllLinked, Visible;
    if j < k { LinksAscend(isSpace, parts, separate, u, b, j, k); }
    if k < j { LinksAscend(isSpace, parts, separate, t, a, k, j); }
  }

  lemma {:induction false} SameFroms(
    isSpace: char -> bool, parts: seq<string>, separate: bool, t: string, a: seq<Link>, u: string, b: seq<Link>, k: nat)
    requires Linked(isSpace, parts, separate, t, a) && Linked(isSpace, parts, separate, u, b) && k <= |a|
    ensures k <= |b| && forall j :: 0 <= j < k ==> a[j].from == b[j].from
  {
    hide Linked;
    if k > 0 {
      SameFroms(isSpace, parts, separate, t, a, u, b, k - 1);
      NoLater(isSpace, parts, separate, u, b, t, a, k - 1);
      NoLater(isSpace, parts, separate, t, a, u, b, k - 1);
    }
  }

  lemma {:induction false} SameLinks(
    isSpace: char -> bool, parts: seq<string>, separate: bool, t: string, a: seq<Link>, u: string, b: seq<Link>, k: nat)
    requires Linked(isSpace, parts, separate, t, a) && Linked(isSpace, parts, separate, u, b) && k <= |a| == |b|
    requires forall j :: 0 <= j < |a| ==> a[j].from == b[j].from
    ensures forall j :: 0 <= j < k ==> a[j] == b[j]
  {
    hide LinksFit, AllLinked, Apart;
    if k > 0 {
      SameLinks(isSpace, parts, separate, t, a, u, b, k - 1);
      if k > 1 {
        assert Neighbours(isSpace, parts, separate, t, a[k - 2], a[k - 1]);
        assert Neighbours(isSpace, parts, separate, u, b[k - 2], b[k - 1]);
      }
    }
  }

  // Each character of the text is a visible one's copy or a space between two.
  lemma {:induction false} TextFrom(
    isSpace: char -> bool, parts: seq<string>, separate: bool, t: string, u: string, links: seq<Link>, k: nat, i: nat)
    requires Linked(isSpace, parts, separate, t, links) && Linked(isSpace, parts, separate, u, links)
    requires k < |links| && i <= links[k].to
    ensures i < |t| && i < |u| && t[i] == u[i]
  {
    hide AllLinked, Apart;
    if i < links[k].to {
      assert k > 0;
      assert Neighbours(isSpace, parts, separate, t, links[k - 1], links[k]);
      assert Neighbours(isSpace, parts, separate, u, links[k - 1], links[k]);
      if i <= links[k - 1].to { TextFrom(isSpace, parts, separate, t, u, links, k - 1, i); }
    }
  }

  // The collapse is determined by the text nodes.
  lemma CollapsesToOne(isSpace: char -> bool, parts: seq<string>, separate: bool, t: string, u: string)
    requires Collapses(isSpace, parts, separate, t) && Collapses(isSpace, parts, separate, u)
    ensures t == u
  {
    var a :| Linked(isSpace, parts, separate, t, a);
    var b :| Linked(isSpace, parts, separate, u, b);
    hide Linked;
    SameFroms(isSpace, parts, separate, t, a, u, b, |a|);
    SameFroms(isSpace, parts, separate, u, b, t, a, |b|);
    SameLinks(isSpace, parts, separate, t, a, u, b, |a|);
    assert a == b;
    SameTexts(isSpace, parts, separate, t, u, a);
  }

  lemma SameTexts(isSpace: char -> bool, parts: seq<string>, separate: bool, t: string, u: string, links: seq<Link>)
    requires Linked(isSpace, parts, separate, t, links) && Linked(isSpace, parts, separate, u, links)
    ensures t == u
  {
    hide LinksFit, AllLinked, Neighbours;
    if links != [] {
      assert |t| == |u| == links[|links| - 1].to + 1;
      forall i | 0 <= i < |t| ensures t[i] == u[i] { TextFrom(isSpace, parts, separate, t, u, links, |links| - 1, i); }
    }
  }

  // ----------------------------------------------------------------- the units

  lemma CollapseShows(isSpace: char -> bool, parts: seq<string>, separate: bool, t: string)
    requires Collapses(isSpace, parts, separate, t)
    ensures t != "" ==> !isSpace(t[0]) && !isSpace(t[|t| - 1])
  {
    var links: seq<Link> :| Linked(isSpace, parts, separate, t, links);
    hide AllLinked, Neighbours;
    if links != [] {
      assert Visible(isSpace, parts, links[0].from);
      assert Visible(isSpace, parts, links[|links| - 1].from);
    }
  }

  lemma NothingToStrip(isSpace: char -> bool, t: string, text: string)
    requires Stripped(isSpace, t, text) && (t != "" ==> !isSpace(t[0]) && !isSpace(t[|t| - 1]))
    ensures text == t
  {
    var before, after :|
      t == before + text + after && (forall c :: c in before ==> isSpace(c)) && forall c :: c in after ==> isSpace(c);
    EndsIn(before, text + after);
    EndsIn(before + text, after);
    assert t == before + (text + after);
  }

  lemma EndsIn(a: string, b: string)
    ensures a != "" ==> (a + b)[0] in a
    ensures b != "" ==> (a + b)[|a + b| - 1] in b
  {
  }

  // Each unit holds its block: kind, caption, element ID and path, and the collapse
  // of the block's text nodes, composed. When composition changes nothing there, the
  // visible characters of the text nodes are those of the unit, one by one.
  lemma UnitsHoldTheirBlocks(
    r: TextRules, kinds: Kinds, base: string, root: Elem, blocks: seq<Elem>, units: seq<Unit>, i: nat, parts: seq<string>, t: string)
    requires r.isSpace(' ') && UnitsOf(r, kinds, base, root, blocks, units) && i < |units|
    requires |parts| == |Texts(blocks[i])| && forall k :: 0 <= k < |parts| ==> parts[k] == Texts(blocks[i])[k].text
    requires Local(blocks[i]) in kinds
    requires var kind := kinds[Local(blocks[i])];
             Collapses(r.isSpace, parts, kind == "table" || kind == "definition_list", t)
    ensures
      var e, u := blocks[i], units[i];
      u.kind == kinds[Local(e)] && u.caption == (if u.kind == "heading" then u.text else base) &&
      u.elementId == (if e.idAttribute == "" then "" else r.nfc(e.idAttribute)) && Follow(root, u.path) == Some(e) &&
      Stripped(r.isSpace, r.nfc(t), u.text) && (r.nfc(t) == t ==> u.text == t)
  {
    var e := blocks[i];
    var separate := kinds[Local(e)] == "table" || kinds[Local(e)] == "definition_list";
    assert units[i] == UnitOf(r, kinds, base, units[i].path, e);
    hide Texts, BlockText, Collapses, Stripped, Follow, UnitsOf, Local;
    BlockTextExactly(r, kinds, e, parts);
    var u :| Collapses(r.isSpace, parts, separate, u) && Stripped(r.isSpace, r.nfc(u), BlockText(r, kinds, e));
    CollapsesToOne(r.isSpace, parts, separate, t, u);
    if r.nfc(t) == t {
      CollapseShows(r.isSpace, parts, separate, t);
      NothingToStrip(r.isSpace, t, BlockText(r, kinds, e));
    }
  }

  // ----------------------------------------------------------- document order

  lemma {:induction false} InnerSplits(owner: nat, local: string, slot: nat, cs: seq<Elem>, i: nat)
    requires i < |cs|
    ensures Inner(owner, local, slot, cs) ==
            Inner(owner, local, slot, cs[..i]) + Texts(cs[i]) + [TextNode(owner, slot + i, local, cs[i].tail)] +
            Inner(owner, local, slot + i + 1, cs[i + 1..])
    decreases |cs|
  {
    hide Texts;
    if i > 0 {
      InnerSplits(owner, local, slot + 1, cs[1..], i - 1);
      assert cs[..i][1..] == cs[1..][..i - 1] && cs[1..][i..] == cs[i + 1..];
    }
  }

  // What stands before and behind the pieces of child `i`.
  predicate Around(e: Elem, i: nat, front: seq<TextNode>, back: seq<TextNode>)
    requires i < |e.children|
  {
    Texts(e) == front + Texts(e.children[i]) + [TextNode(e.id, i + 1, Local(e), e.children[i].tail)] + back &&
    front != [] && (i + 1 == |e.children| ==> back == []) &&
    if i == 0 then front == [TextNode(e.id, 0, Local(e), e.text)]
    else front[|front| - 1] == TextNode(e.id, i, Local(e), e.children[i - 1].tail)
  }

  // An element's own pieces stand around those of its children: its text first,
  // then every child's pieces followed by the child's tail.
  lemma TextsInDocumentOrder(e: Elem, i: nat)
    ensures e.children == [] ==> Texts(e) == [TextNode(e.id, 0, Local(e), e.text)]
    ensures i < |e.children| ==> exists front, back :: Around(e, i, front, back)
  {
    if i < |e.children| {
      hide *;
      var front, back := PiecesAround(e, i);
    }
  }

  lemma PiecesAround(e: Elem, i: nat) returns (front: seq<TextNode>, back: seq<TextNode>)
    requires i < |e.children|
    ensures Around(e, i, front, back)
  {
    var cs, local := e.children, Local(e);
    var own := TextNode(e.id, 0, local, e.text);
    var before := Inner(e.id, local, 1, cs[..i]);
    front, back := [own] + before, Inner(e.id, local, i + 2, cs[i + 1..]);
    assert Texts(e) == [own] + Inner(e.id, local, 1, cs);
    hide Local, Inner, Texts;
    InnerSplits(e.id, local, 1, cs, i);
    Regroup([own], before, Texts(cs[i]), [TextNode(e.id, i + 1, local, cs[i].tail)], back);
    if i + 1 == |cs| { NothingInside(e.id, local, i + 2, cs[i + 1..]); }
    if i == 0 { NothingInside(e.id, local, 1, cs[..i]); } else { LastTail(e.id, local, cs, i); }
  }

  lemma Regroup<T>(a: seq<T>, b: seq<T>, c: seq<T>, d: seq<T>, e: seq<T>)
    ensures a + (b + c + d + e) == a + b + c + d + e
  {
  }

  lemma LastTail(owner: nat, local: string, cs: seq<Elem>, i: nat)
    requires 0 < i <= |cs|
    ensures var before := Inner(owner, local, 1, cs[..i]);
            before != [] && before[|before| - 1] == TextNode(owner, i, local, cs[i - 1].tail)
  {
    hide Inner, Texts;
    InnerSplits(owner, local, 1, cs[..i], i - 1);
    NothingInside(owner, local, i + 1, cs[..i][i..]);
  }

  lemma NothingInside(owner: nat, local: string, slot: nat, cs: seq<Elem>)
    requires cs == []
    ensures Inner(owner, local, slot, cs) == []
  {
  }

  lemma {:induction false} UpToIs(c: char, s: string, n: nat)
    requires n < |s| && s[n] == c && forall k :: 0 <= k < n ==> s[k] != c
    ensures UpTo(c, s) == n
  {
    if n > 0 { UpToIs(c, s[1..], n - 1); }
  }

  // "{namespace}local", or the whole tag.
  lemma TagSplitsExactly(tag: string, namespace: string, local: string)
    ensures tag == "{" + namespace + "}" + local && '}' !in namespace ==> SplitTag(tag) == Tag(namespace, local)
    ensures (tag == "" || tag[0] != '{' || '}' !in tag) ==> SplitTag(tag) == Tag("", tag)
  {
    if tag == "{" + namespace + "}" + local && '}' !in namespace {
      var at := |namespace| + 1;
      forall k | 0 <= k < at ensures tag[k] != '}' { assert tag[k] == ("{" + namespace)[k]; }
      UpToIs('}', tag, at);
      assert tag[1..at] == namespace && tag[at + 1..] == local;
    }
  }
}
