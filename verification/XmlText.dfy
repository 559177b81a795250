// Projection of an XML tree into text blocks, and the account of what the
// blocks leave out.

module XmlText {
  import opened Common
  import opened Ordering
  import opened XmlTree
  import opened XmlPaths

  // ------------------------------------------------------------------- text

  // Canonical composition neither makes nor removes white space.
  ghost predicate KeepsBlanks(r: TextRules) {
    r.isSpace(' ') && forall s :: Blank(r.isSpace, r.nfc(s)) <==> Blank(r.isSpace, s)
  }

  // sep.join(parts)
  function Join(sep: string, parts: seq<string>): string {
    if parts == [] then "" else if |parts| == 1 then parts[0] else parts[0] + sep + Join(sep, parts[1..])
  }

  function RunLength(isSpace: char -> bool, s: string): (n: nat)
    ensures n <= |s| && (n < |s| ==> isSpace(s[n])) && forall i :: 0 <= i < n ==> !isSpace(s[i])
  {
    if s == [] || isSpace(s[0]) then 0 else 1 + RunLength(isSpace, s[1..])
  }

  // s.split(): the maximal runs without white space.
  function Fields(isSpace: char -> bool, s: string): seq<string>
    decreases |s|
  {
    if s == [] then []
    else if isSpace(s[0]) then Fields(isSpace, s[1..])
    else var n := RunLength(isSpace, s); [s[..n]] + Fields(isSpace, s[n..])
  }

  function StripLeft(isSpace: char -> bool, s: string): string {
    if s != [] && isSpace(s[0]) then StripLeft(isSpace, s[1..]) else s
  }

  function StripRight(isSpace: char -> bool, s: string): string {
    if s != [] && isSpace(s[|s| - 1]) then StripRight(isSpace, s[..|s| - 1]) else s
  }

  function Strip(isSpace: char -> bool, s: string): string {
    StripRight(isSpace, StripLeft(isSpace, s))
  }

  // The text of a block: white space collapsed, composed and stripped.
  function Normalized(r: TextRules, parts: seq<string>, separate: bool): string {
    Strip(r.isSpace, r.nfc(Join(" ", Fields(r.isSpace, Join(if separate then " " else "", parts)))))
  }

  lemma {:induction false} FieldsOfBlank(isSpace: char -> bool, s: string)
    ensures Fields(isSpace, s) == [] <==> Blank(isSpace, s)
    ensures Fields(isSpace, s) != [] ==> Fields(isSpace, s)[0] != "" && !isSpace(Fields(isSpace, s)[0][0])
    decreases |s|
  {
    if s != [] {
      assert s == [s[0]] + s[1..];
      if isSpace(s[0]) { FieldsOfBlank(isSpace, s[1..]); } else { assert s[0] in s; }
    }
  }

  lemma {:induction false} StripOfBlank(isSpace: char -> bool, s: string)
    ensures StripLeft(isSpace, s) == "" <==> Blank(isSpace, s)
    ensures StripRight(isSpace, s) == "" <==> Blank(isSpace, s)
    ensures StripLeft(isSpace, s) != "" ==> !isSpace(StripLeft(isSpace, s)[0])
    decreases |s|
  {
    if s != [] {
      assert s == [s[0]] + s[1..];
      assert s == s[..|s| - 1] + [s[|s| - 1]];
      StripOfBlank(isSpace, s[1..]);
      StripOfBlank(isSpace, s[..|s| - 1]);
    }
  }

  lemma BlankConcat(isSpace: char -> bool, a: string, b: string)
    ensures Blank(isSpace, a + b) <==> Blank(isSpace, a) && Blank(isSpace, b)
  {
    assert forall c :: c in a + b <==> c in a || c in b;
  }

  lemma {:induction false} JoinOfBlank(isSpace: char -> bool, sep: string, parts: seq<string>)
    requires Blank(isSpace, sep)
    ensures Blank(isSpace, Join(sep, parts)) <==> forall p :: p in parts ==> Blank(isSpace, p)
  {
    if parts != [] {
      assert parts == [parts[0]] + parts[1..];
      if |parts| > 1 {
        JoinOfBlank(isSpace, sep, parts[1..]);
        BlankConcat(isSpace, parts[0], sep);
        BlankConcat(isSpace, parts[0] + sep, Join(sep, parts[1..]));
      }
      assert forall p :: p in parts <==> p == parts[0] || p in parts[1..];
    }
  }

  lemma FirstFieldShows(isSpace: char -> bool, fields: seq<string>)
    requires fields != [] && fields[0] != "" && !isSpace(fields[0][0])
    ensures !Blank(isSpace, Join(" ", fields))
  {
    assert Join(" ", fields)[0] == fields[0][0];
  }

  // A block has text exactly when one of its text nodes is not blank.
  lemma NormalizedIsEmpty(r: TextRules, parts: seq<string>, separate: bool)
    requires KeepsBlanks(r)
    ensures Normalized(r, parts, separate) == "" <==> forall p :: p in parts ==> Blank(r.isSpace, p)
  {
    var joined := Join(if separate then " " else "", parts);
    var fields := Fields(r.isSpace, joined);
    var collapsed := Join(" ", fields);
    JoinOfBlank(r.isSpace, if separate then " " else "", parts);
    FieldsOfBlank(r.isSpace, joined);
    if fields != [] { FirstFieldShows(r.isSpace, fields); }
    assert Blank(r.isSpace, collapsed) <==> Blank(r.isSpace, joined);
    var composed := r.nfc(collapsed);
    assert Blank(r.isSpace, composed) <==> Blank(r.isSpace, collapsed);
    StripOfBlank(r.isSpace, composed);
    StripOfBlank(r.isSpace, StripLeft(r.isSpace, composed));
  }

  // ----------------------------------------------------------------- blocks

  type Kinds = map<string, string>

  function TextOf(x: TextNode): string { x.text }

  predicate Separates(kind: string) {
    kind == "table" || kind == "definition_list"
  }

  function BlockText(r: TextRules, kinds: Kinds, e: Elem): string {
    Normalized(r, Map(TextOf, Texts(e)), Local(e) in kinds && Separates(kinds[Local(e)]))
  }

  predicate Qualifies(r: TextRules, kinds: Kinds, e: Elem) {
    Local(e) in kinds && BlockText(r, kinds, e) != ""
  }

  // The topmost qualifying elements, in document order.
  function Blocks(r: TextRules, kinds: Kinds, e: Elem): seq<Elem>
    decreases e
  {
    if Qualifies(r, kinds, e) then [e] else AllBlocks(r, kinds, e.children)
  }

  function AllBlocks(r: TextRules, kinds: Kinds, cs: seq<Elem>): seq<Elem>
    decreases cs
  {
    if cs == [] then [] else Blocks(r, kinds, cs[0]) + AllBlocks(r, kinds, cs[1..])
  }

  // The source's pass over all elements, which skips what a chosen block covers.
  function Scan(r: TextRules, kinds: Kinds, nodes: seq<Elem>, covered: set<nat>): seq<Elem> {
    if nodes == [] then []
    else if Qualifies(r, kinds, nodes[0]) && nodes[0].id !in covered then
      [nodes[0]] + Scan(r, kinds, nodes[1..], covered + Ids(nodes[0]))
    else Scan(r, kinds, nodes[1..], covered)
  }

  lemma {:induction false} NodesHaveIds(e: Elem)
    ensures forall n :: n in Nodes(e) ==> n.id in Ids(e)
  {
    forall n | n in Nodes(e) ensures n.id in Ids(e) { NodeIds(e, n); }
  }

  lemma {:induction false} ScanCovered(r: TextRules, kinds: Kinds, nodes: seq<Elem>, rest: seq<Elem>, covered: set<nat>)
    requires forall n :: n in nodes ==> n.id in covered
    ensures Scan(r, kinds, nodes + rest, covered) == Scan(r, kinds, rest, covered)
    decreases |nodes|
  {
    if nodes == [] {
      assert nodes + rest == rest;
    } else {
      assert (nodes + rest)[1..] == nodes[1..] + rest;
      ScanCovered(r, kinds, nodes[1..], rest, covered);
    }
  }

  lemma {:induction false} AllIdsConcat(a: seq<Elem>, b: seq<Elem>)
    ensures AllIds(a + b) == AllIds(a) + AllIds(b)
    decreases |a|
  {
    if a == [] {
      assert a + b == b;
    } else {
      assert (a + b)[1..] == a[1..] + b;
      AllIdsConcat(a[1..], b);
    }
  }

  lemma {:induction false} BlocksInside(r: TextRules, kinds: Kinds, e: Elem)
    ensures AllIds(Blocks(r, kinds, e)) <= Ids(e)
    decreases e
  {
    hide Qualifies;
    if Qualifies(r, kinds, e) {
      assert [e][1..] == [] && AllIds([e]) == Ids(e) + AllIds([]);
    } else {
      AllBlocksInside(r, kinds, e.children);
    }
  }

  lemma {:induction false} AllBlocksInside(r: TextRules, kinds: Kinds, cs: seq<Elem>)
    ensures AllIds(AllBlocks(r, kinds, cs)) <= AllIds(cs)
    decreases cs
  {
    if cs != [] {
      BlocksInside(r, kinds, cs[0]);
      AllBlocksInside(r, kinds, cs[1..]);
      AllIdsConcat(Blocks(r, kinds, cs[0]), AllBlocks(r, kinds, cs[1..]));
    }
  }

  // Scanning a subtree that is not covered yet finds its topmost blocks.
  lemma {:induction false} ScanTree(r: TextRules, kinds: Kinds, e: Elem, rest: seq<Elem>, covered: set<nat>)
    requires Tree(e) && Ids(e) !! covered
    ensures Scan(r, kinds, Nodes(e) + rest, covered)
         == Blocks(r, kinds, e) + Scan(r, kinds, rest, covered + AllIds(Blocks(r, kinds, e)))
    decreases e
  {
    hide Qualifies;
    var nodes := Nodes(e) + rest;
    assert nodes[0] == e && nodes[1..] == AllNodes(e.children) + rest;
    if Qualifies(r, kinds, e) {
      assert [e][1..] == [] && AllIds([e]) == Ids(e) + AllIds([]);
      NodesHaveIds(e);
      forall n | n in AllNodes(e.children) ensures n.id in covered + Ids(e) { assert n in Nodes(e); }
      ScanCovered(r, kinds, AllNodes(e.children), rest, covered + Ids(e));
      assert covered + AllIds([e]) == covered + Ids(e);
    } else {
      ScanForest(r, kinds, e.children, rest, covered);
    }
  }

  lemma {:induction false} ScanForest(r: TextRules, kinds: Kinds, cs: seq<Elem>, rest: seq<Elem>, covered: set<nat>)
    requires Forest(cs) && AllIds(cs) !! covered
    ensures Scan(r, kinds, AllNodes(cs) + rest, covered)
         == AllBlocks(r, kinds, cs) + Scan(r, kinds, rest, covered + AllIds(AllBlocks(r, kinds, cs)))
    decreases cs
  {
    hide Qualifies, Blocks, Scan, Nodes;
    if cs == [] {
      assert AllNodes(cs) + rest == rest && covered + {} == covered;
    } else {
      var first, others := Blocks(r, kinds, cs[0]), AllBlocks(r, kinds, cs[1..]);
      BlocksInside(r, kinds, cs[0]);
      ScanTree(r, kinds, cs[0], AllNodes(cs[1..]) + rest, covered);
      ScanForest(r, kinds, cs[1..], rest, covered + AllIds(first));
      AllIdsConcat(first, others);
      assert AllNodes(cs) + rest == Nodes(cs[0]) + (AllNodes(cs[1..]) + rest);
      assert covered + AllIds(first) + AllIds(others) == covered + AllIds(first + others);
    }
  }

  lemma ScanFindsBlocks(r: TextRules, kinds: Kinds, root: Elem)
    requires Tree(root)
    ensures Scan(r, kinds, Nodes(root), {}) == Blocks(r, kinds, root)
  {
    ScanTree(r, kinds, root, [], {});
    assert Nodes(root) + [] == Nodes(root);
  }

  // ------------------------------------------------------------- dropped text

  predicate TailShows(r: TextRules, c: Elem) {
    !Blank(r.isSpace, c.tail)
  }

  // The tags one element answers for itself.
  function OwnDropped(r: TextRules, e: Elem): set<string> {
    if !Blank(r.isSpace, e.text) || exists c :: c in e.children && TailShows(r, c) then {Local(e)} else {}
  }

  function Dropped(r: TextRules, e: Elem, selected: set<nat>): set<string>
    decreases e
  {
    if e.id in selected then {} else OwnDropped(r, e) + AllDropped(r, e.children, selected)
  }

  function AllDropped(r: TextRules, cs: seq<Elem>, selected: set<nat>): set<string>
    decreases cs
  {
    if cs == [] then {} else Dropped(r, cs[0], selected) + AllDropped(r, cs[1..], selected)
  }

  lemma {:induction false} AllDroppedConcat(r: TextRules, a: seq<Elem>, b: seq<Elem>, selected: set<nat>)
    ensures AllDropped(r, a + b, selected) == AllDropped(r, a, selected) + AllDropped(r, b, selected)
    decreases |a|
  {
    if a == [] {
      assert a + b == b;
    } else {
      assert (a + b)[1..] == a[1..] + b;
      AllDroppedConcat(r, a[1..], b, selected);
    }
  }

  lemma {:induction false} AllDroppedReverse(r: TextRules, cs: seq<Elem>, selected: set<nat>)
    ensures AllDropped(r, Reverse(cs), selected) == AllDropped(r, cs, selected)
    decreases |cs|
  {
    if cs != [] {
      AllDroppedReverse(r, cs[1..], selected);
      AllDroppedConcat(r, Reverse(cs[1..]), [cs[0]], selected);
      AllDroppedOne(r, cs[0], selected);
    }
  }

  lemma AllDroppedOne(r: TextRules, e: Elem, selected: set<nat>)
    ensures AllDropped(r, [e], selected) == Dropped(r, e, selected)
  {
    assert [e][1..] == [];
  }

  // sorted(): a set of tags as the one ascending sequence.
  method SortedTags(tags: set<string>) returns (sorted: seq<string>)
    ensures Sorted(StrLeq, sorted) && Distinct(sorted) && Elems(sorted) == tags
  {
    var rest, listed := tags, [];
    while rest != {}
      invariant Elems(listed) + rest == tags && Elems(listed) !! rest && Distinct(listed)
      decreases rest
    {
      var tag :| tag in rest;
      DistinctSnoc(listed, tag);
      assert tag !in Elems(listed);
      rest, listed := rest - {tag}, listed + [tag];
    }
    sorted := Sort(StrLeq, listed);
    StrLeqIsTotalPreorder();
    SortCorrect(StrLeq, listed);
    SameElements(listed, sorted);
  }

  // What one element adds: its tag, for its own text and for its children's tails.
  method AddDropped(r: TextRules, e: Elem, before: set<string>) returns (dropped: set<string>)
    ensures dropped == before + OwnDropped(r, e)
  {
    dropped := before;
    if !Blank(r.isSpace, e.text) { dropped := dropped + {Local(e)}; }
    ghost var start := dropped;
    for i := 0 to |e.children|
      invariant dropped == start + (if exists c :: c in e.children[..i] && TailShows(r, c) then {Local(e)} else {})
    {
      assert e.children[..i + 1] == e.children[..i] + [e.children[i]];
      if TailShows(r, e.children[i]) {
        assert e.children[i] in e.children[..i + 1];
        dropped := dropped + {Local(e)};
      }
    }
    assert e.children[..|e.children|] == e.children;
  }

  // Walks everything outside the chosen blocks, from an explicit stack.
  method DroppedTextTags(r: TextRules, root: Elem, selected: set<nat>) returns (tags: seq<string>)
    ensures Sorted(StrLeq, tags) && Distinct(tags) && Elems(tags) == Dropped(r, root, selected)
  {
    hide Dropped, OwnDropped, Local, Reverse, Count, CountAll, Distinct, Sorted, Elems;
    var dropped: set<string> := {};
    var pending := [root];
    AllDroppedOne(r, root, selected);
    while pending != []
      invariant dropped + AllDropped(r, pending, selected) == Dropped(r, root, selected)
      decreases Total(pending)
    {
      var e := pending[|pending| - 1];
      var front := pending[..|pending| - 1];
      PopDropped(r, front, e, selected);
      assert pending == front + [e];
      TotalOfPush(front, e);
      pending := front;
      if e.id in selected { continue; }
      dropped := AddDropped(r, e, dropped);
      pending := pending + Reverse(e.children);
    }
    tags := SortedTags(dropped);
  }

  lemma TotalOfPush(front: seq<Elem>, e: Elem)
    ensures Total(front) < Total(front + [e]) && Total(front + Reverse(e.children)) < Total(front + [e])
  {
    TotalConcat(front, Reverse(e.children));
    TotalReverse(e.children);
    assert (front + [e])[..|front|] == front;
  }

  lemma PopDropped(r: TextRules, front: seq<Elem>, e: Elem, selected: set<nat>)
    ensures AllDropped(r, front + [e], selected) ==
      if e.id in selected then AllDropped(r, front, selected)
      else OwnDropped(r, e) + AllDropped(r, front + Reverse(e.children), selected)
  {
    AllDroppedConcat(r, front, [e], selected);
    AllDroppedOne(r, e, selected);
    AllDroppedConcat(r, front, Reverse(e.children), selected);
    AllDroppedReverse(r, e.children, selected);
  }

  // ------------------------------------------------------------ the projector

  datatype Unit = Unit(kind: string, caption: string, text: string, path: seq<Step>, elementId: string)

  function UnitOf(r: TextRules, kinds: Kinds, base: string, path: seq<Step>, e: Elem): Unit
    requires Local(e) in kinds
  {
    var kind, text := kinds[Local(e)], BlockText(r, kinds, e);
    Unit(kind, if kind == "heading" then text else base, text, path,
         if e.idAttribute == "" then "" else r.nfc(e.idAttribute))
  }

  // Each block's unit carries the block's text and a path back to the block.
  ghost predicate UnitsOf(r: TextRules, kinds: Kinds, base: string, root: Elem, blocks: seq<Elem>, units: seq<Unit>) {
    |units| == |blocks| &&
    forall i :: 0 <= i < |blocks| ==>
      Local(blocks[i]) in kinds && units[i] == UnitOf(r, kinds, base, units[i].path, blocks[i]) &&
      Follow(root, units[i].path) == Some(blocks[i])
  }

  lemma UnitsSnoc(r: TextRules, kinds: Kinds, base: string, root: Elem, blocks: seq<Elem>, units: seq<Unit>, e: Elem, path: seq<Step>)
    requires UnitsOf(r, kinds, base, root, blocks, units)
    requires Local(e) in kinds && Follow(root, path) == Some(e)
    ensures UnitsOf(r, kinds, base, root, blocks + [e], units + [UnitOf(r, kinds, base, path, e)])
  {
    UnitPath(r, kinds, base, path, e);
    hide UnitOf, Follow, Local;
  }

  lemma UnitPath(r: TextRules, kinds: Kinds, base: string, path: seq<Step>, e: Elem)
    requires Local(e) in kinds
    ensures UnitOf(r, kinds, base, path, e).path == path
  {
  }

  method XmlTextUnits(r: TextRules, kinds: Kinds, base: string, root: Elem) returns (units: seq<Unit>, tags: seq<string>)
    requires Tree(root)
    ensures UnitsOf(r, kinds, base, root, Blocks(r, kinds, root), units)
    ensures Sorted(StrLeq, tags) && Distinct(tags)
    ensures Elems(tags) == Dropped(r, root, Chosen(Blocks(r, kinds, root)))
  {
    hide Scan, Qualifies, UnitsOf, UnitOf, Blocks, Dropped, Chosen, Tree, Follow, Nodes;
    var paths := PathsOf(root);
    var elements := Nodes(root);
    units := [];
    ghost var blocks: seq<Elem> := [];
    var selected, covered: set<nat> := {}, {};
    NothingChosen(r, kinds, base, root);
    for i := 0 to |elements|
      invariant UnitsOf(r, kinds, base, root, blocks, units) && selected == Chosen(blocks)
      invariant blocks + Scan(r, kinds, elements[i..], covered) == Scan(r, kinds, elements, {})
    {
      var e := elements[i];
      var local := Local(e);
      ScanStep(r, kinds, elements[i..], covered);
      assert elements[i..][1..] == elements[i + 1..];
      if local !in kinds || e.id in covered { continue; }
      var text := BlockText(r, kinds, e);
      if text == "" { continue; }
      assert e in Nodes(root);
      UnitsSnoc(r, kinds, base, root, blocks, units, e, paths[e.id]);
      ChosenSnoc(blocks, e);
      units := units + [UnitOf(r, kinds, base, paths[e.id], e)];
      blocks := blocks + [e];
      selected := selected + {e.id};
      covered := covered + Ids(e);
    }
    ScanNothing(r, kinds, elements, covered);
    assert blocks + [] == blocks;
    ScanFindsBlocks(r, kinds, root);
    tags := DroppedTextTags(r, root, selected);
  }

  function Chosen(blocks: seq<Elem>): set<nat> {
    set b | b in blocks :: b.id
  }

  lemma ChosenSnoc(blocks: seq<Elem>, e: Elem)
    ensures Chosen(blocks + [e]) == Chosen(blocks) + {e.id}
  {
  }

  lemma ScanStep(r: TextRules, kinds: Kinds, nodes: seq<Elem>, covered: set<nat>)
    requires nodes != []
    ensures Scan(r, kinds, nodes, covered) ==
      if Local(nodes[0]) in kinds && nodes[0].id !in covered && BlockText(r, kinds, nodes[0]) != ""
      then [nodes[0]] + Scan(r, kinds, nodes[1..], covered + Ids(nodes[0]))
      else Scan(r, kinds, nodes[1..], covered)
  {
  }

  lemma ScanNothing(r: TextRules, kinds: Kinds, nodes: seq<Elem>, covered: set<nat>)
    ensures Scan(r, kinds, nodes[|nodes|..], covered) == []
  {
  }

  lemma NothingChosen(r: TextRules, kinds: Kinds, base: string, root: Elem)
    ensures UnitsOf(r, kinds, base, root, [], []) && Chosen([]) == {}
  {
  }
}
