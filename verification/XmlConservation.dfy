// What the projector keeps and what it reports as dropped, taken together, is
// all of the tree's text.

module XmlConservation {
  import opened Common
  import opened Ordering
  import opened XmlTree
  import opened XmlText

  // ------------------------------------------------- how blocks lie in the tree

  lemma {:induction false} ForestConcat(a: seq<Elem>, b: seq<Elem>)
    requires Forest(a) && Forest(b) && AllIds(a) !! AllIds(b)
    ensures Forest(a + b)
    decreases |a|
  {
    if a == [] {
      assert a + b == b;
    } else {
      assert (a + b)[1..] == a[1..] + b;
      ForestConcat(a[1..], b);
      AllIdsConcat(a[1..], b);
    }
  }

  lemma JustOne(e: Elem)
    ensures Forest([e]) <==> Tree(e)
    ensures AllIds([e]) == Ids(e) && Chosen([e]) == {e.id} && TextsOf([e]) == Texts(e)
  {
    assert [e][1..] == [];
  }

  lemma {:induction false} BlocksApart(r: TextRules, kinds: Kinds, e: Elem)
    requires Tree(e)
    ensures Forest(Blocks(r, kinds, e))
    decreases e
  {
    hide Qualifies;
    if Qualifies(r, kinds, e) { JustOne(e); } else { AllBlocksApart(r, kinds, e.children); }
  }

  lemma {:induction false} AllBlocksApart(r: TextRules, kinds: Kinds, cs: seq<Elem>)
    requires Forest(cs)
    ensures Forest(AllBlocks(r, kinds, cs))
    decreases cs
  {
    if cs != [] {
      BlocksApart(r, kinds, cs[0]);
      AllBlocksApart(r, kinds, cs[1..]);
      BlocksInside(r, kinds, cs[0]);
      AllBlocksInside(r, kinds, cs[1..]);
      ForestConcat(Blocks(r, kinds, cs[0]), AllBlocks(r, kinds, cs[1..]));
    }
  }

  // Of a set of IDs, a subtree holds just those of its own blocks.
  ghost predicate Fits(r: TextRules, kinds: Kinds, e: Elem, covered: set<nat>, selected: set<nat>) {
    covered * Ids(e) == AllIds(Blocks(r, kinds, e)) && selected * Ids(e) == Chosen(Blocks(r, kinds, e))
  }

  ghost predicate AllFit(r: TextRules, kinds: Kinds, cs: seq<Elem>, covered: set<nat>, selected: set<nat>) {
    covered * AllIds(cs) == AllIds(AllBlocks(r, kinds, cs)) && selected * AllIds(cs) == Chosen(AllBlocks(r, kinds, cs))
  }

  lemma {:induction false} ChosenInside(blocks: seq<Elem>)
    ensures Chosen(blocks) <= AllIds(blocks)
  {
    if blocks != [] {
      ChosenInside(blocks[1..]);
      assert blocks == [blocks[0]] + blocks[1..];
      assert Chosen(blocks) == {blocks[0].id} + Chosen(blocks[1..]);
    }
  }

  lemma RestrictUnion(s: set<nat>, x: set<nat>, y: set<nat>, a: set<nat>, b: set<nat>)
    requires x !! y && a <= x && b <= y && s * (x + y) == a + b
    ensures s * x == a && s * y == b
  {
    assert s * x == (s * (x + y)) * x;
    assert s * y == (s * (x + y)) * y;
  }

  lemma FitsParts(r: TextRules, kinds: Kinds, cs: seq<Elem>, covered: set<nat>, selected: set<nat>)
    requires Forest(cs) && cs != [] && AllFit(r, kinds, cs, covered, selected)
    ensures Fits(r, kinds, cs[0], covered, selected) && AllFit(r, kinds, cs[1..], covered, selected)
  {
    hide Blocks, Ids, Chosen;
    var first, others := Blocks(r, kinds, cs[0]), AllBlocks(r, kinds, cs[1..]);
    BlocksInside(r, kinds, cs[0]);
    AllBlocksInside(r, kinds, cs[1..]);
    AllIdsConcat(first, others);
    ChosenConcat(first, others);
    ChosenInside(first);
    ChosenInside(others);
    RestrictUnion(covered, Ids(cs[0]), AllIds(cs[1..]), AllIds(first), AllIds(others));
    RestrictUnion(selected, Ids(cs[0]), AllIds(cs[1..]), Chosen(first), Chosen(others));
  }

  lemma ChosenConcat(a: seq<Elem>, b: seq<Elem>)
    ensures Chosen(a + b) == Chosen(a) + Chosen(b)
  {
  }

  // An element that is no block itself leaves its own ID out of both sets.
  lemma FitsBelow(r: TextRules, kinds: Kinds, e: Elem, covered: set<nat>, selected: set<nat>)
    requires Tree(e) && Fits(r, kinds, e, covered, selected) && !Qualifies(r, kinds, e)
    ensures AllFit(r, kinds, e.children, covered, selected) && e.id !in covered && e.id !in selected
  {
    hide Qualifies, AllBlocks, Chosen;
    var blocks := AllBlocks(r, kinds, e.children);
    AllBlocksInside(r, kinds, e.children);
    ChosenInside(blocks);
    RestrictUnion(covered, {e.id}, AllIds(e.children), {}, AllIds(blocks));
    RestrictUnion(selected, {e.id}, AllIds(e.children), {}, Chosen(blocks));
    assert e.id in covered ==> e.id in covered * {e.id};
    assert e.id in selected ==> e.id in selected * {e.id};
  }

  lemma FitsAtBlock(r: TextRules, kinds: Kinds, e: Elem, covered: set<nat>, selected: set<nat>)
    requires Fits(r, kinds, e, covered, selected) && Qualifies(r, kinds, e)
    ensures Ids(e) <= covered && selected * Ids(e) == {e.id}
  {
    JustOne(e);
  }

  function HasId(ids: set<nat>): Elem -> bool {
    (e: Elem) => e.id in ids
  }

  // ------------------------------------------------------------ document order

  lemma {:induction false} BlocksAreFiltered(r: TextRules, kinds: Kinds, e: Elem, covered: set<nat>, selected: set<nat>)
    requires Tree(e) && Fits(r, kinds, e, covered, selected)
    ensures Filter(HasId(selected), Nodes(e)) == Blocks(r, kinds, e)
    decreases e
  {
    hide Qualifies, Fits, AllFit;
    assert Nodes(e)[1..] == AllNodes(e.children);
    if Qualifies(r, kinds, e) {
      FitsAtBlock(r, kinds, e, covered, selected);
      assert e.id in Ids(e) && e.id in selected * Ids(e);
      forall n | n in AllNodes(e.children) ensures !HasId(selected)(n) {
        ForestNodeIds(e.children, n);
        assert n.id in selected ==> n.id in selected * Ids(e);
      }
      FilterNone(HasId(selected), AllNodes(e.children));
    } else {
      FitsBelow(r, kinds, e, covered, selected);
      AllBlocksAreFiltered(r, kinds, e.children, covered, selected);
    }
  }

  lemma {:induction false} AllBlocksAreFiltered(r: TextRules, kinds: Kinds, cs: seq<Elem>, covered: set<nat>, selected: set<nat>)
    requires Forest(cs) && AllFit(r, kinds, cs, covered, selected)
    ensures Filter(HasId(selected), AllNodes(cs)) == AllBlocks(r, kinds, cs)
    decreases cs
  {
    hide Blocks, Fits, AllFit, Nodes;
    if cs != [] {
      FitsParts(r, kinds, cs, covered, selected);
      BlocksAreFiltered(r, kinds, cs[0], covered, selected);
      AllBlocksAreFiltered(r, kinds, cs[1..], covered, selected);
      FilterConcat(HasId(selected), Nodes(cs[0]), AllNodes(cs[1..]));
    }
  }

  // Every qualifying element is inside a block.
  lemma {:induction false} QualifyingIsCovered(r: TextRules, kinds: Kinds, e: Elem, n: Elem)
    requires n in Nodes(e) && Qualifies(r, kinds, n)
    ensures exists b :: b in Blocks(r, kinds, e) && n in Nodes(b)
    decreases e
  {
    hide Qualifies;
    if Qualifies(r, kinds, e) {
      assert e in Blocks(r, kinds, e);
    } else {
      assert n in AllNodes(e.children);
      QualifyingInForest(r, kinds, e.children, n);
    }
  }

  lemma {:induction false} QualifyingInForest(r: TextRules, kinds: Kinds, cs: seq<Elem>, n: Elem)
    requires n in AllNodes(cs) && Qualifies(r, kinds, n)
    ensures exists b :: b in AllBlocks(r, kinds, cs) && n in Nodes(b)
    decreases cs
  {
    hide Qualifies, Blocks, Nodes;
    if n in Nodes(cs[0]) {
      QualifyingIsCovered(r, kinds, cs[0], n);
      var b :| b in Blocks(r, kinds, cs[0]) && n in Nodes(b);
      assert b in AllBlocks(r, kinds, cs);
    } else {
      QualifyingInForest(r, kinds, cs[1..], n);
      var b :| b in AllBlocks(r, kinds, cs[1..]) && n in Nodes(b);
      assert b in AllBlocks(r, kinds, cs);
    }
  }

  lemma {:induction false} BlocksQualify(r: TextRules, kinds: Kinds, e: Elem)
    ensures forall b :: b in Blocks(r, kinds, e) ==> Qualifies(r, kinds, b)
    decreases e
  {
    hide Qualifies;
    if !Qualifies(r, kinds, e) { AllBlocksQualify(r, kinds, e.children); }
  }

  lemma {:induction false} AllBlocksQualify(r: TextRules, kinds: Kinds, cs: seq<Elem>)
    ensures forall b :: b in AllBlocks(r, kinds, cs) ==> Qualifies(r, kinds, b)
    decreases cs
  {
    hide Qualifies, Blocks;
    if cs != [] {
      BlocksQualify(r, kinds, cs[0]);
      AllBlocksQualify(r, kinds, cs[1..]);
    }
  }

  // -------------------------------------------------------------- kept text

  function TextsOf(blocks: seq<Elem>): seq<TextNode> {
    if blocks == [] then [] else Texts(blocks[0]) + TextsOf(blocks[1..])
  }

  function OwnedBy(ids: set<nat>): TextNode -> bool {
    (x: TextNode) => x.owner in ids
  }

  lemma {:induction false} TextsOfConcat(a: seq<Elem>, b: seq<Elem>)
    ensures TextsOf(a + b) == TextsOf(a) + TextsOf(b)
    decreases |a|
  {
    if a == [] {
      assert a + b == b;
    } else {
      assert (a + b)[1..] == a[1..] + b;
      TextsOfConcat(a[1..], b);
    }
  }

  lemma {:induction false} KeepAll<T>(p: T -> bool, s: seq<T>)
    requires forall x :: x in s ==> p(x)
    ensures Filter(p, s) == s
  {
    if s != [] { KeepAll(p, s[1..]); }
  }

  // The blocks' text nodes are the tree's text nodes that the blocks own, in order.
  lemma {:induction false} KeptTexts(r: TextRules, kinds: Kinds, e: Elem, covered: set<nat>, selected: set<nat>)
    requires Tree(e) && Fits(r, kinds, e, covered, selected)
    ensures Filter(OwnedBy(covered), Texts(e)) == TextsOf(Blocks(r, kinds, e))
    decreases e
  {
    hide Qualifies, Fits, AllFit, Local;
    if Qualifies(r, kinds, e) {
      FitsAtBlock(r, kinds, e, covered, selected);
      TextOwners(e);
      KeepAll(OwnedBy(covered), Texts(e));
      JustOne(e);
    } else {
      FitsBelow(r, kinds, e, covered, selected);
      KeptInner(r, kinds, e.id, Local(e), 1, e.children, covered, selected);
      assert Texts(e)[1..] == Inner(e.id, Local(e), 1, e.children);
    }
  }

  lemma {:induction false} KeptInner(
    r: TextRules, kinds: Kinds, owner: nat, local: string, slot: nat, cs: seq<Elem>, covered: set<nat>, selected: set<nat>)
    requires Forest(cs) && AllFit(r, kinds, cs, covered, selected) && owner !in covered
    ensures Filter(OwnedBy(covered), Inner(owner, local, slot, cs)) == TextsOf(AllBlocks(r, kinds, cs))
    decreases cs
  {
    hide Blocks, Fits, AllFit, Texts;
    if cs != [] {
      var tail, rest := [TextNode(owner, slot, local, cs[0].tail)], Inner(owner, local, slot + 1, cs[1..]);
      FitsParts(r, kinds, cs, covered, selected);
      KeptTexts(r, kinds, cs[0], covered, selected);
      KeptInner(r, kinds, owner, local, slot + 1, cs[1..], covered, selected);
      FilterConcat(OwnedBy(covered), Texts(cs[0]) + tail, rest);
      FilterConcat(OwnedBy(covered), Texts(cs[0]), tail);
      assert Filter(OwnedBy(covered), tail) == [];
      TextsOfConcat(Blocks(r, kinds, cs[0]), AllBlocks(r, kinds, cs[1..]));
    }
  }

  // ------------------------------------------------------------ dropped text

  // A text node that shows, lies outside the blocks and belongs to such an element.
  predicate Missed(r: TextRules, covered: set<nat>, tag: string, x: TextNode) {
    !Blank(r.isSpace, x.text) && x.owner !in covered && x.local == tag
  }

  ghost predicate Misses(r: TextRules, covered: set<nat>, tag: string, texts: seq<TextNode>) {
    exists x :: x in texts && Missed(r, covered, tag, x)
  }

  lemma MissesConcat(r: TextRules, covered: set<nat>, tag: string, a: seq<TextNode>, b: seq<TextNode>)
    ensures Misses(r, covered, tag, a + b) <==> Misses(r, covered, tag, a) || Misses(r, covered, tag, b)
  {
    hide Missed;
  }

  lemma MissesOne(r: TextRules, covered: set<nat>, tag: string, x: TextNode)
    ensures Misses(r, covered, tag, [x]) <==> Missed(r, covered, tag, x)
  {
    hide Missed;
    assert x in [x];
  }

  lemma {:induction false} DroppedExactly(
    r: TextRules, kinds: Kinds, e: Elem, covered: set<nat>, selected: set<nat>, tag: string)
    requires Tree(e) && Fits(r, kinds, e, covered, selected)
    ensures tag in Dropped(r, e, selected) <==> Misses(r, covered, tag, Texts(e))
    decreases e
  {
    hide Qualifies, Fits, AllFit, Local, Misses, Blank;
    var first, inner := TextNode(e.id, 0, Local(e), e.text), Inner(e.id, Local(e), 1, e.children);
    MissesConcat(r, covered, tag, [first], inner);
    MissesOne(r, covered, tag, first);
    if Qualifies(r, kinds, e) {
      FitsAtBlock(r, kinds, e, covered, selected);
      assert e.id in selected * Ids(e);
      TextOwners(e);
      NothingMissed(r, covered, tag, Texts(e));
    } else {
      FitsBelow(r, kinds, e, covered, selected);
      DroppedInner(r, kinds, e.id, Local(e), 1, e.children, covered, selected, tag);
    }
  }

  lemma NothingMissed(r: TextRules, covered: set<nat>, tag: string, texts: seq<TextNode>)
    requires forall x :: x in texts ==> x.owner in covered
    ensures !Misses(r, covered, tag, texts)
  {
  }

  lemma {:induction false} DroppedInner(
    r: TextRules, kinds: Kinds, owner: nat, local: string, slot: nat, cs: seq<Elem>,
    covered: set<nat>, selected: set<nat>, tag: string)
    requires Forest(cs) && AllFit(r, kinds, cs, covered, selected) && owner !in covered
    ensures Misses(r, covered, tag, Inner(owner, local, slot, cs)) <==>
      tag in AllDropped(r, cs, selected) || (tag == local && exists c :: c in cs && TailShows(r, c))
    decreases cs
  {
    hide Fits, AllFit, Misses, Blank, Texts, Dropped;
    if cs == [] {
      NothingMissed(r, covered, tag, []);
    } else {
      var tail, rest := TextNode(owner, slot, local, cs[0].tail), Inner(owner, local, slot + 1, cs[1..]);
      FitsParts(r, kinds, cs, covered, selected);
      DroppedExactly(r, kinds, cs[0], covered, selected, tag);
      DroppedInner(r, kinds, owner, local, slot + 1, cs[1..], covered, selected, tag);
      MissesConcat(r, covered, tag, Texts(cs[0]) + [tail], rest);
      MissesConcat(r, covered, tag, Texts(cs[0]), [tail]);
      MissesOne(r, covered, tag, tail);
      assert (exists c :: c in cs && TailShows(r, c)) <==>
             TailShows(r, cs[0]) || exists c :: c in cs[1..] && TailShows(r, c);
    }
  }

  // ---------------------------------------------------------------- theorems

  ghost function Covered(r: TextRules, kinds: Kinds, root: Elem): set<nat> {
    AllIds(Blocks(r, kinds, root))
  }

  lemma RootFits(r: TextRules, kinds: Kinds, root: Elem)
    ensures Fits(r, kinds, root, Covered(r, kinds, root), Chosen(Blocks(r, kinds, root)))
  {
    hide Blocks;
    BlocksInside(r, kinds, root);
    ChosenInside(Blocks(r, kinds, root));
  }

  // An element becomes a block candidate exactly when its tag is listed and some
  // text below it shows.
  lemma QualifiesExactly(r: TextRules, kinds: Kinds, e: Elem)
    requires KeepsBlanks(r)
    ensures Qualifies(r, kinds, e) <==> Local(e) in kinds && exists x :: x in Texts(e) && !Blank(r.isSpace, x.text)
  {
    var texts := Texts(e);
    hide Texts, Local, Blank;
    NormalizedIsEmpty(r, Map(TextOf, texts), Local(e) in kinds && Separates(kinds[Local(e)]));
    MapElems(TextOf, texts);
    assert forall p :: p in Map(TextOf, texts) <==> p in Elems(Map(TextOf, texts));
    forall x | x in texts ensures x.text in Map(TextOf, texts) { assert TextOf(x) in Elems(Map(TextOf, texts)); }
  }

  // The selected blocks are qualifying elements in document order, no two of
  // them nested, and every qualifying element lies inside one.
  lemma BlocksAreOrderedAndApart(r: TextRules, kinds: Kinds, root: Elem)
    requires Tree(root)
    ensures
      var blocks := Blocks(r, kinds, root);
      blocks == Filter(HasId(Chosen(blocks)), Nodes(root)) &&
      (forall i, j :: 0 <= i < j < |blocks| ==> Ids(blocks[i]) !! Ids(blocks[j])) &&
      (forall b :: b in blocks ==> Qualifies(r, kinds, b)) &&
      (forall n :: n in Nodes(root) && Qualifies(r, kinds, n) ==> exists b :: b in blocks && n in Nodes(b))
  {
    hide Qualifies, Blocks, Nodes, Fits, Ids;
    var blocks := Blocks(r, kinds, root);
    RootFits(r, kinds, root);
    BlocksAreFiltered(r, kinds, root, Covered(r, kinds, root), Chosen(blocks));
    BlocksApart(r, kinds, root);
    forall i, j | 0 <= i < j < |blocks| ensures Ids(blocks[i]) !! Ids(blocks[j]) { ChildrenDisjoint(blocks, i, j); }
    BlocksQualify(r, kinds, root);
    forall n | n in Nodes(root) && Qualifies(r, kinds, n) ensures exists b :: b in blocks && n in Nodes(b) {
      QualifyingIsCovered(r, kinds, root, n);
    }
  }

  function Shows(r: TextRules): TextNode -> bool {
    (x: TextNode) => !Blank(r.isSpace, x.text)
  }

  lemma {:induction false} OwnersBlock(blocks: seq<Elem>, id: nat)
    requires id in AllIds(blocks)
    ensures exists i :: 0 <= i < |blocks| && id in Ids(blocks[i])
  {
    if id in Ids(blocks[0]) {
    } else {
      OwnersBlock(blocks[1..], id);
      var i :| 0 <= i < |blocks[1..]| && id in Ids(blocks[1..][i]);
      assert id in Ids(blocks[i + 1]);
    }
  }

  ghost predicate InOneBlock(blocks: seq<Elem>, id: nat) {
    exists i :: 0 <= i < |blocks| && id in Ids(blocks[i]) &&
                forall j :: 0 <= j < |blocks| && j != i ==> id !in Ids(blocks[j])
  }

  ghost predicate InNoBlock(blocks: seq<Elem>, id: nat) {
    forall i :: 0 <= i < |blocks| ==> id !in Ids(blocks[i])
  }

  lemma OneBlockOrNone(blocks: seq<Elem>, id: nat)
    requires Forest(blocks)
    ensures InOneBlock(blocks, id) <==> id in AllIds(blocks)
    ensures InNoBlock(blocks, id) <==> id !in AllIds(blocks)
  {
    hide Forest, Ids;
    forall i | 0 <= i < |blocks| ensures Ids(blocks[i]) <= AllIds(blocks) { ChildInForest(blocks, i); }
    if id in AllIds(blocks) {
      OwnersBlock(blocks, id);
      var i :| 0 <= i < |blocks| && id in Ids(blocks[i]);
      forall j | 0 <= j < |blocks| && j != i ensures id !in Ids(blocks[j]) {
        ChildrenDisjoint(blocks, if i < j then i else j, if i < j then j else i);
      }
    }
  }

  // Every text node that shows is inside exactly one block, or its owner's tag is
  // reported; and a tag is reported only for text that is inside none.
  lemma EveryTextIsKeptOrReported(r: TextRules, kinds: Kinds, root: Elem)
    requires Tree(root)
    ensures
      var blocks := Blocks(r, kinds, root);
      var dropped := Dropped(r, root, Chosen(blocks));
      (forall x :: x in Texts(root) && !Blank(r.isSpace, x.text) ==> InOneBlock(blocks, x.owner) || x.local in dropped) &&
      (forall tag :: tag in dropped <==> exists x ::
        x in Texts(root) && !Blank(r.isSpace, x.text) && x.local == tag && InNoBlock(blocks, x.owner))
  {
    hide Qualifies, Blocks, Fits, Blank, Texts, Dropped, Ids, InOneBlock, InNoBlock;
    var blocks, covered := Blocks(r, kinds, root), Covered(r, kinds, root);
    RootFits(r, kinds, root);
    BlocksApart(r, kinds, root);
    forall id ensures InOneBlock(blocks, id) <==> id in covered
              ensures InNoBlock(blocks, id) <==> id !in covered
    {
      OneBlockOrNone(blocks, id);
    }
    forall tag ensures tag in Dropped(r, root, Chosen(blocks)) <==> exists x ::
        x in Texts(root) && !Blank(r.isSpace, x.text) && x.local == tag && InNoBlock(blocks, x.owner)
    {
      DroppedExactly(r, kinds, root, covered, Chosen(blocks), tag);
    }
    forall x | x in Texts(root) && !Blank(r.isSpace, x.text)
      ensures InOneBlock(blocks, x.owner) || x.local in Dropped(r, root, Chosen(blocks))
    {
      assert x.owner !in covered ==> InNoBlock(blocks, x.owner);
    }
  }

  lemma {:induction false} FilterTwice<T>(p: T -> bool, q: T -> bool, s: seq<T>)
    requires forall x :: x in s && p(x) ==> q(x)
    ensures Filter(p, Filter(q, s)) == Filter(p, s)
  {
    if s != [] {
      var rest := s[1..];
      FilterTwice(p, q, rest);
      FilterConcat(p, if q(s[0]) then [s[0]] else [], Filter(q, rest));
      assert p(s[0]) ==> q(s[0]);
    }
  }

  // No tag is reported exactly when the blocks' text nodes are all of the tree's
  // text nodes that show, in order.
  lemma NothingDroppedMeansAllKept(r: TextRules, kinds: Kinds, root: Elem)
    requires Tree(root)
    ensures
      var blocks := Blocks(r, kinds, root);
      Dropped(r, root, Chosen(blocks)) == {} <==>
      Filter(Shows(r), TextsOf(blocks)) == Filter(Shows(r), Texts(root))
  {
    hide Qualifies, Blocks, Fits, Blank, Texts, Dropped, Ids;
    var blocks, covered := Blocks(r, kinds, root), Covered(r, kinds, root);
    var dropped := Dropped(r, root, Chosen(blocks));
    RootFits(r, kinds, root);
    KeptTexts(r, kinds, root, covered, Chosen(blocks));
    if dropped == {} {
      forall x | x in Texts(root) && Shows(r)(x) ensures OwnedBy(covered)(x) {
        DroppedExactly(r, kinds, root, covered, Chosen(blocks), x.local);
        assert x.owner !in covered ==> Missed(r, covered, x.local, x);
      }
      FilterTwice(Shows(r), OwnedBy(covered), Texts(root));
    } else {
      var tag :| tag in dropped;
      DroppedExactly(r, kinds, root, covered, Chosen(blocks), tag);
      var x :| x in Texts(root) && Missed(r, covered, tag, x);
      assert x in Filter(Shows(r), Texts(root));
      assert x !in Filter(OwnedBy(covered), Texts(root));
    }
  }
}
