// Unique paths to the elements of a tree.

module XmlPaths {
  import opened Common
  import opened XmlTree

  // One step: the index-th child, counted from one, among those with the tag.
  datatype Step = Step(tag: Tag, index: int)

  function CountTag(cs: seq<Elem>, tag: Tag): nat {
    if cs == [] then 0 else CountTag(cs[..|cs| - 1], tag) + (if SplitTag(cs[|cs| - 1].tag) == tag then 1 else 0)
  }

  function StepAt(cs: seq<Elem>, i: nat): Step
    requires i < |cs|
  {
    var tag := SplitTag(cs[i].tag);
    Step(tag, CountTag(cs[..i + 1], tag))
  }

  // Reading a step: an independent walk over the children.
  function ChildAt(cs: seq<Elem>, step: Step): Option<Elem> {
    if cs == [] then None
    else if SplitTag(cs[0].tag) != step.tag then ChildAt(cs[1..], step)
    else if step.index == 1 then Some(cs[0])
    else ChildAt(cs[1..], Step(step.tag, step.index - 1))
  }

  function Walk(e: Elem, steps: seq<Step>): Option<Elem>
    decreases steps
  {
    if steps == [] then Some(e)
    else match ChildAt(e.children, steps[0])
      case Some(c) => Walk(c, steps[1..])
      case None => None
  }

  // The element that a path leads to.
  function Follow(root: Elem, path: seq<Step>): Option<Elem> {
    if path == [] || path[0] != Step(SplitTag(root.tag), 1) then None else Walk(root, path[1..])
  }

  lemma {:induction false} CountTagCons(cs: seq<Elem>, tag: Tag)
    requires cs != []
    ensures CountTag(cs, tag) == (if SplitTag(cs[0].tag) == tag then 1 else 0) + CountTag(cs[1..], tag)
    decreases |cs|
  {
    if |cs| > 1 {
      CountTagCons(cs[..|cs| - 1], tag);
      assert cs[..|cs| - 1][1..] == cs[1..][..|cs[1..]| - 1];
    }
  }

  // The step recorded for a child finds that child.
  lemma {:induction false} StepFindsChild(cs: seq<Elem>, i: nat)
    requires i < |cs|
    ensures ChildAt(cs, StepAt(cs, i)) == Some(cs[i])
    ensures StepAt(cs, i).index >= 1
    decreases i
  {
    hide SplitTag;
    var tag := SplitTag(cs[i].tag);
    CountTagCons(cs[..i + 1], tag);
    if i > 0 {
      StepFindsChild(cs[1..], i - 1);
      assert cs[..i + 1][1..] == cs[1..][..i];
    } else {
      assert cs[..1][1..] == [];
    }
  }

  // And a step that finds something is the one recorded for what it finds.
  lemma {:induction false} ChildHasStep(cs: seq<Elem>, step: Step) returns (i: nat)
    requires ChildAt(cs, step).Some?
    ensures i < |cs| && ChildAt(cs, step) == Some(cs[i]) && step == StepAt(cs, i)
    decreases |cs|
  {
    hide SplitTag;
    if SplitTag(cs[0].tag) == step.tag && step.index == 1 {
      i := 0;
      CountTagCons(cs[..1], step.tag);
      assert cs[..1][1..] == [];
    } else {
      var here := SplitTag(cs[0].tag) == step.tag;
      var j := ChildHasStep(cs[1..], if here then Step(step.tag, step.index - 1) else step);
      i := j + 1;
      CountTagCons(cs[..i + 1], step.tag);
      assert cs[..i + 1][1..] == cs[1..][..j + 1];
      assert StepAt(cs, i) == step;
    }
  }

  lemma {:induction false} WalkSnoc(e: Elem, steps: seq<Step>, step: Step)
    ensures Walk(e, steps + [step]) ==
            match Walk(e, steps) case Some(n) => ChildAt(n.children, step) case None => None
    decreases steps
  {
    if steps == [] {
      assert (steps + [step])[1..] == [];
    } else {
      assert (steps + [step])[1..] == steps[1..] + [step];
      match ChildAt(e.children, steps[0]) {
        case Some(c) => WalkSnoc(c, steps[1..], step);
        case None =>
      }
    }
  }

  lemma {:induction false} WalkStaysInside(e: Elem, steps: seq<Step>)
    requires Walk(e, steps).Some?
    ensures Walk(e, steps).value in Nodes(e)
    decreases steps
  {
    if steps != [] {
      var i := ChildHasStep(e.children, steps[0]);
      WalkStaysInside(e.children[i], steps[1..]);
      ChildIsNode(e, i);
      NodesTransitive(e, e.children[i], Walk(e, steps).value);
    }
  }

  lemma {:induction false} WalkIsUnique(e: Elem, p: seq<Step>, q: seq<Step>)
    requires Tree(e) && Walk(e, p).Some? && Walk(e, p) == Walk(e, q)
    ensures p == q
    decreases p
  {
    var n := Walk(e, p).value;
    if p == [] && q == [] {
    } else if p == [] {
      NotBelowItself(e, q);
    } else if q == [] {
      NotBelowItself(e, p);
    } else {
      var i := ChildHasStep(e.children, p[0]);
      var j := ChildHasStep(e.children, q[0]);
      var c, d := e.children[i], e.children[j];
      WalkStaysInside(c, p[1..]);
      WalkStaysInside(d, q[1..]);
      NodeIds(c, n);
      NodeIds(d, n);
      if i < j { ChildrenDisjoint(e.children, i, j); }
      if j < i { ChildrenDisjoint(e.children, j, i); }
      ChildInForest(e.children, i);
      WalkIsUnique(c, p[1..], q[1..]);
    }
  }

  lemma NotBelowItself(e: Elem, p: seq<Step>)
    requires Tree(e) && p != []
    ensures Walk(e, p) != Some(e)
  {
    if Walk(e, p).Some? {
      var i := ChildHasStep(e.children, p[0]);
      WalkStaysInside(e.children[i], p[1..]);
      NodeIds(e.children[i], Walk(e, p).value);
      ChildInForest(e.children, i);
    }
  }

  // ---------------------------------------------------------- the algorithm

  type PathMap = map<nat, seq<Step>>

  function Reverse(cs: seq<Elem>): (r: seq<Elem>)
    ensures |r| == |cs| && forall i :: 0 <= i < |cs| ==> r[i] == cs[|cs| - 1 - i]
  {
    if cs == [] then [] else Reverse(cs[1..]) + [cs[0]]
  }

  // Every recorded path leads to the element it is recorded for.
  ghost predicate Sound(root: Elem, paths: PathMap) {
    forall id :: id in paths ==>
      Follow(root, paths[id]).Some? && Follow(root, paths[id]).value.id == id
  }

  ghost predicate Reached(root: Elem, paths: PathMap, pending: seq<Elem>) {
    (forall p :: p in pending ==> p in Nodes(root) && p.id in paths) &&
    (forall n :: n in Nodes(root) ==> n.id in paths || exists p :: p in pending && n in Nodes(p))
  }

  function Total(pending: seq<Elem>): nat {
    if pending == [] then 0 else Total(pending[..|pending| - 1]) + Count(pending[|pending| - 1])
  }

  lemma {:induction false} TotalConcat(a: seq<Elem>, b: seq<Elem>)
    ensures Total(a + b) == Total(a) + Total(b)
    decreases |b|
  {
    if b == [] {
      assert a + b == a;
    } else {
      TotalConcat(a, b[..|b| - 1]);
      assert (a + b)[..|a + b| - 1] == a + b[..|b| - 1];
    }
  }

  lemma {:induction false} TotalReverse(cs: seq<Elem>)
    ensures Total(Reverse(cs)) == CountAll(cs)
  {
    if cs != [] {
      TotalReverse(cs[1..]);
      assert Reverse(cs)[..|cs| - 1] == Reverse(cs[1..]);
    }
  }

  lemma SameNode(root: Elem, a: Elem, b: Elem)
    requires Tree(root) && a in Nodes(root) && b in Nodes(root) && a.id == b.id
    ensures a == b
    decreases root
  {
    if a != root && b != root {
      NodeIds(root, a);
      NodeIds(root, b);
      var c :| c in root.children && a in Nodes(c);
      var d :| d in root.children && b in Nodes(d);
      var i :| 0 <= i < |root.children| && root.children[i] == c;
      var j :| 0 <= j < |root.children| && root.children[j] == d;
      NodeIds(c, a);
      NodeIds(d, b);
      if i < j { ChildrenDisjoint(root.children, i, j); }
      if j < i { ChildrenDisjoint(root.children, j, i); }
      ChildInForest(root.children, i);
      SameNode(c, a, b);
    } else if a != root {
      RootIdIsItsOwn(root, a);
    } else if b != root {
      RootIdIsItsOwn(root, b);
    }
  }

  lemma RootIdIsItsOwn(root: Elem, n: Elem)
    requires Tree(root) && n in Nodes(root) && n != root
    ensures n.id != root.id
  {
    ForestNodeIds(root.children, n);
  }

  lemma FollowFinds(root: Elem, path: seq<Step>, n: Elem)
    requires Tree(root) && n in Nodes(root)
    requires Follow(root, path).Some? && Follow(root, path).value.id == n.id
    ensures Follow(root, path) == Some(n)
  {
    WalkStaysInside(root, path[1..]);
    SameNode(root, Follow(root, path).value, n);
  }

  lemma ChildPath(root: Elem, path: seq<Step>, e: Elem, i: nat)
    requires Follow(root, path) == Some(e) && i < |e.children|
    ensures Follow(root, path + [StepAt(e.children, i)]) == Some(e.children[i])
  {
    assert (path + [StepAt(e.children, i)])[1..] == path[1..] + [StepAt(e.children, i)];
    WalkSnoc(root, path[1..], StepAt(e.children, i));
    StepFindsChild(e.children, i);
  }

  function Tally(counts: map<Tag, nat>, tag: Tag): nat {
    if tag in counts then counts[tag] else 0
  }

  // counts[tag] = counts.get(tag, 0) + 1
  function Bump(counts: map<Tag, nat>, tag: Tag): map<Tag, nat> {
    counts[tag := Tally(counts, tag) + 1]
  }

  ghost predicate Tallied(counts: map<Tag, nat>, cs: seq<Elem>) {
    forall tag :: Tally(counts, tag) == CountTag(cs, tag)
  }

  lemma TallyStep(cs: seq<Elem>, i: nat, counts: map<Tag, nat>)
    requires i < |cs| && Tallied(counts, cs[..i])
    ensures var tag := SplitTag(cs[i].tag);
            Tallied(Bump(counts, tag), cs[..i + 1]) &&
            StepAt(cs, i) == Step(tag, Tally(Bump(counts, tag), tag))
  {
    hide SplitTag;
    var next := Bump(counts, SplitTag(cs[i].tag));
    forall tag ensures Tally(next, tag) == CountTag(cs[..i + 1], tag) {
      assert cs[..i + 1][..i] == cs[..i];
      assert Tally(counts, tag) == CountTag(cs[..i], tag);
    }
  }

  function ChildIds(cs: seq<Elem>): set<nat> {
    set c | c in cs :: c.id
  }

  lemma ChildIdsSnoc(cs: seq<Elem>, i: nat)
    requires i < |cs|
    ensures ChildIds(cs[..i + 1]) == ChildIds(cs[..i]) + {cs[i].id}
  {
    assert cs[..i + 1] == cs[..i] + [cs[i]];
  }

  lemma RecordChild(root: Elem, paths: PathMap, path: seq<Step>, e: Elem, i: nat)
    requires Sound(root, paths) && Follow(root, path) == Some(e) && i < |e.children|
    ensures var after := paths[e.children[i].id := path + [StepAt(e.children, i)]];
            Sound(root, after) && after.Keys == paths.Keys + {e.children[i].id}
  {
    ChildPath(root, path, e, i);
  }

  // The inner loop: numbers the children of one element and records their paths.
  method AddChildren(root: Elem, e: Elem, before: PathMap) returns (paths: PathMap)
    requires Tree(root) && e in Nodes(root) && e.id in before && Sound(root, before)
    ensures Sound(root, paths)
    ensures paths.Keys == before.Keys + ChildIds(e.children)
  {
    var current := before[e.id];
    FollowFinds(root, current, e);
    hide *;
    paths := before;
    var counts: map<Tag, nat> := map[];
    NoneTallied();
    for i := 0 to |e.children|
      invariant Sound(root, paths)
      invariant paths.Keys == before.Keys + ChildIds(e.children[..i])
      invariant Tallied(counts, e.children[..i])
    {
      var child := e.children[i];
      var key := SplitTag(child.tag);
      TallyStep(e.children, i, counts);
      RecordChild(root, paths, current, e, i);
      assert paths.Keys + {child.id} == before.Keys + ChildIds(e.children[..i + 1]) by {
        ChildIdsSnoc(e.children, i);
      }
      counts := Bump(counts, key);
      paths := paths[child.id := current + [Step(key, Tally(counts, key))]];
    }
    assert e.children[..|e.children|] == e.children;
  }

  lemma NoneTallied()
    ensures Tallied(map[], []) && ChildIds([]) == {}
  {
  }

  method PathsOf(root: Elem) returns (paths: PathMap)
    requires Tree(root)
    ensures paths.Keys == set n | n in Nodes(root) :: n.id
    ensures forall n :: n in Nodes(root) ==> Follow(root, paths[n.id]) == Some(n)
  {
    paths := map[root.id := [Step(SplitTag(root.tag), 1)]];
    var pending := [root];
    assert Total(pending[..0]) == 0;
    while pending != []
      invariant Sound(root, paths) && Reached(root, paths, pending)
      invariant paths.Keys <= set n | n in Nodes(root) :: n.id
      decreases Total(pending)
    {
      var e := pending[|pending| - 1];
      ghost var before, known := pending, paths;
      pending := pending[..|pending| - 1];
      paths := AddChildren(root, e, paths);
      pending := pending + Reverse(e.children);
      TotalConcat(before[..|before| - 1], Reverse(e.children));
      TotalReverse(e.children);
      StillReached(root, known, paths, before, e);
    }
    forall n | n in Nodes(root) ensures n.id in paths && Follow(root, paths[n.id]) == Some(n) {
      FollowFinds(root, paths[n.id], n);
    }
  }

  lemma ChildrenReached(root: Elem, front: seq<Elem>, e: Elem, c: Elem)
    requires e in Nodes(root) && c in e.children
    ensures c in Nodes(root) && c in front + Reverse(e.children)
  {
    var i :| 0 <= i < |e.children| && e.children[i] == c;
    ChildIsNode(e, i);
    NodesTransitive(root, e, c);
    assert (front + Reverse(e.children))[|front| + (|e.children| - 1 - i)] == c;
  }

  lemma ReverseElems(cs: seq<Elem>)
    ensures forall c :: c in Reverse(cs) ==> c in cs
  {
  }

  lemma StillReached(root: Elem, known: PathMap, paths: PathMap, before: seq<Elem>, e: Elem)
    requires before != [] && before[|before| - 1] == e
    requires Reached(root, known, before) && paths.Keys == known.Keys + ChildIds(e.children)
    requires known.Keys <= set n | n in Nodes(root) :: n.id
    ensures Reached(root, paths, before[..|before| - 1] + Reverse(e.children))
    ensures paths.Keys <= set n | n in Nodes(root) :: n.id
  {
    hide Nodes, Reverse;
    var front := before[..|before| - 1];
    var after := front + Reverse(e.children);
    assert before == front + [e];
    ReverseElems(e.children);
    forall c | c in e.children ensures c in Nodes(root) && c in after { ChildrenReached(root, front, e, c); }
    forall p | p in after ensures p in Nodes(root) && p.id in paths {
      if p !in e.children { assert p in before; }
    }
    forall n | n in Nodes(root) && n.id !in paths ensures exists p :: p in after && n in Nodes(p) {
      assert n.id !in known;
      var p :| p in before && n in Nodes(p);
      if p == e {
        NodeIds(e, n);
      } else {
        assert p in after;
      }
    }
  }

  // --------------------------------------------------------------- theorems

  // Paths tell elements apart, and no element has a second path.
  lemma PathsAreInjective(root: Elem, p: seq<Step>, q: seq<Step>)
    requires Tree(root) && Follow(root, p).Some? && Follow(root, q).Some?
    ensures Follow(root, p).value.id == Follow(root, q).value.id <==> p == q
  {
    if Follow(root, p).value.id == Follow(root, q).value.id {
      WalkStaysInside(root, p[1..]);
      WalkStaysInside(root, q[1..]);
      SameNode(root, Follow(root, p).value, Follow(root, q).value);
      WalkIsUnique(root, p[1..], q[1..]);
      assert p == [p[0]] + p[1..] && q == [q[0]] + q[1..];
    }
  }

  // The positions up to this one whose children have the tag.
  function SameTag(cs: seq<Elem>, i: nat, tag: Tag): set<int>
    requires i <= |cs|
  {
    set k | 0 <= k < i && SplitTag(cs[k].tag) == tag
  }

  lemma {:induction false} CountTagExactly(cs: seq<Elem>, i: nat, tag: Tag)
    requires i <= |cs|
    ensures CountTag(cs[..i], tag) == |SameTag(cs, i, tag)|
  {
    hide SplitTag;
    if i == 0 {
      assert SameTag(cs, i, tag) == {};
    } else {
      CountTagExactly(cs, i - 1, tag);
      assert cs[..i][..i - 1] == cs[..i - 1];
      var here := SplitTag(cs[i - 1].tag) == tag;
      assert SameTag(cs, i, tag) == SameTag(cs, i - 1, tag) + (if here then {i - 1} else {});
    }
  }

  // The root's path is its tag, counted one; a child's is its parent's with its own
  // tag, counted among the children up to it that share the tag.
  lemma FollowsDown(root: Elem, path: seq<Step>, e: Elem, i: nat)
    ensures Follow(root, [Step(SplitTag(root.tag), 1)]) == Some(root)
    ensures
      Follow(root, path) == Some(e) && i < |e.children| ==>
        var tag := SplitTag(e.children[i].tag);
        Follow(root, path + [Step(tag, |SameTag(e.children, i + 1, tag)|)]) == Some(e.children[i])
  {
    if Follow(root, path) == Some(e) && i < |e.children| {
      CountTagExactly(e.children, i + 1, SplitTag(e.children[i].tag));
      ChildPath(root, path, e, i);
    }
  }
}
