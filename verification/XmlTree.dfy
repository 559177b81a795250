// Parsed XML trees as the book connector sees them: elements with a text
// before their first child and a tail after their own end tag.

module XmlTree {
  import opened Common

  datatype Tag = Tag(namespace: string, local: string)

  // `id` stands for the identity of the element object. Absent text and an
  // absent attribute read as "".
  datatype Elem = Elem(id: nat, tag: string, idAttribute: string, text: string, tail: string, children: seq<Elem>)

  // A text position: slot 0 is the owner's text, slot k the tail of its k-th child.
  datatype TextNode = TextNode(owner: nat, slot: nat, local: string, text: string)

  function UpTo(c: char, s: string): (n: nat)
    ensures n <= |s| && c !in s[..n] && (n < |s| ==> s[n] == c)
  {
    if s == [] || s[0] == c then 0 else 1 + UpTo(c, s[1..])
  }

  // "{namespace}local" or "local".
  function SplitTag(tag: string): Tag {
    if tag != [] && tag[0] == '{' && UpTo('}', tag) < |tag| then
      Tag(tag[1..UpTo('}', tag)], tag[UpTo('}', tag) + 1..])
    else Tag("", tag)
  }

  function Local(e: Elem): string {
    SplitTag(e.tag).local
  }

  // Element.iter(): the element and its descendants in document order.
  function Nodes(e: Elem): seq<Elem> {
    [e] + AllNodes(e.children)
  }

  function AllNodes(cs: seq<Elem>): seq<Elem> {
    if cs == [] then [] else Nodes(cs[0]) + AllNodes(cs[1..])
  }

  function NodeId(e: Elem): nat { e.id }

  function Ids(e: Elem): set<nat> {
    {e.id} + AllIds(e.children)
  }

  function AllIds(cs: seq<Elem>): set<nat> {
    if cs == [] then {} else Ids(cs[0]) + AllIds(cs[1..])
  }

  function Count(e: Elem): (n: nat)
    ensures n > 0
  {
    1 + CountAll(e.children)
  }

  function CountAll(cs: seq<Elem>): nat {
    if cs == [] then 0 else Count(cs[0]) + CountAll(cs[1..])
  }

  // Different places of the tree hold different objects.
  predicate Tree(e: Elem) {
    e.id !in AllIds(e.children) && Forest(e.children)
  }

  predicate Forest(cs: seq<Elem>) {
    cs == [] || (Tree(cs[0]) && Ids(cs[0]) !! AllIds(cs[1..]) && Forest(cs[1..]))
  }

  // Element.itertext(), with the position of each piece.
  function Texts(e: Elem): seq<TextNode>
    decreases e
  {
    [TextNode(e.id, 0, Local(e), e.text)] + Inner(e.id, Local(e), 1, e.children)
  }

  function Inner(owner: nat, local: string, slot: nat, cs: seq<Elem>): seq<TextNode>
    decreases cs
  {
    if cs == [] then []
    else Texts(cs[0]) + [TextNode(owner, slot, local, cs[0].tail)] + Inner(owner, local, slot + 1, cs[1..])
  }

  // ------------------------------------------------------------ basic facts

  lemma {:induction false} NodeIds(e: Elem, n: Elem)
    requires n in Nodes(e)
    ensures n.id in Ids(e)
    ensures n == e || exists c :: c in e.children && n in Nodes(c)
    decreases e
  {
    if n != e { ForestNodeIds(e.children, n); }
  }

  lemma {:induction false} ForestNodeIds(cs: seq<Elem>, n: Elem)
    requires n in AllNodes(cs)
    ensures n.id in AllIds(cs)
    ensures exists c :: c in cs && n in Nodes(c)
    decreases cs
  {
    if n in Nodes(cs[0]) { NodeIds(cs[0], n); } else { ForestNodeIds(cs[1..], n); }
  }

  lemma {:induction false} ChildInForest(cs: seq<Elem>, i: nat)
    requires i < |cs|
    ensures Ids(cs[i]) <= AllIds(cs)
    ensures forall n :: n in Nodes(cs[i]) ==> n in AllNodes(cs)
    ensures Count(cs[i]) <= CountAll(cs)
    ensures Forest(cs) ==> Tree(cs[i])
    decreases |cs|
  {
    if i > 0 { ChildInForest(cs[1..], i - 1); }
  }

  // Descendants of a descendant are descendants.
  lemma {:induction false} NodesTransitive(e: Elem, m: Elem, n: Elem)
    requires m in Nodes(e) && n in Nodes(m)
    ensures n in Nodes(e)
    ensures Tree(e) ==> Tree(m)
    ensures Ids(m) <= Ids(e)
    decreases e
  {
    if m != e {
      NodeIds(e, m);
      var c :| c in e.children && m in Nodes(c);
      NodesTransitive(c, m, n);
      var i :| 0 <= i < |e.children| && e.children[i] == c;
      ChildInForest(e.children, i);
    }
  }

  lemma ChildIsNode(e: Elem, i: nat)
    requires i < |e.children|
    ensures e.children[i] in Nodes(e)
  {
    ChildInForest(e.children, i);
    assert e.children[i] in Nodes(e.children[i]);
  }

  // Two children have no descendant in common.
  lemma {:induction false} ChildrenDisjoint(cs: seq<Elem>, i: nat, j: nat)
    requires i < j < |cs| && Forest(cs)
    ensures Ids(cs[i]) !! Ids(cs[j])
    decreases |cs|
  {
    if i == 0 { ChildInForest(cs[1..], j - 1); } else { ChildrenDisjoint(cs[1..], i - 1, j - 1); }
  }

  lemma {:induction false} TextOwners(e: Elem)
    ensures forall x :: x in Texts(e) ==> x.owner in Ids(e)
    decreases e
  {
    InnerOwners(e.id, Local(e), 1, e.children);
  }

  lemma {:induction false} InnerOwners(owner: nat, local: string, slot: nat, cs: seq<Elem>)
    ensures forall x :: x in Inner(owner, local, slot, cs) ==>
      (x.owner == owner && x.local == local) || x.owner in AllIds(cs)
    decreases cs
  {
    if cs != [] {
      TextOwners(cs[0]);
      InnerOwners(owner, local, slot + 1, cs[1..]);
    }
  }
}
