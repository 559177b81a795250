// How a run's trace is laid out: nothing comes in before what it names, and every
// object comes in together with the missing part of its closure.

module RouteBlocks {
  import opened Common
  import opened AtlasModels
  import opened SemanticRoute
  import opened RouteGraph
  import opened RouteRun
  import opened RouteInvariant
  import opened RouteTheorems
  import opened RouteRecords
  import opened RouteTrace
  import opened RouteParents
  import opened RouteOrder

  // ------------------------------------------------------- closed at every point

  // Wherever the trace is cut, the objects before the cut name only each other.
  ghost predicate ClosedAlong(m: ManifestData, trace: seq<TraceEntry>) {
    forall n :: 0 <= n <= |trace| ==> Closed(m, Held(trace[..n]))
  }

  // The keys may be added one by one on top of what is held.
  ghost predicate AddsClosed(m: ManifestData, held: set<Key>, keys: seq<Key>) {
    forall n :: 0 <= n <= |keys| ==> Closed(m, held + Elems(keys[..n]))
  }

  lemma ClosedAlongSnoc(m: ManifestData, trace: seq<TraceEntry>, e: TraceEntry)
    requires ClosedAlong(m, trace) && Closed(m, Held(trace) + {e.key})
    ensures ClosedAlong(m, trace + [e])
  {
    HeldSnoc(trace, e);
    hide Closed, Held;
    forall n | 0 <= n <= |trace| + 1 ensures Closed(m, Held((trace + [e])[..n])) {
      if n <= |trace| { assert (trace + [e])[..n] == trace[..n]; } else { assert (trace + [e])[..n] == trace + [e]; }
    }
  }

  lemma AddsClosedHead(m: ManifestData, held: set<Key>, keys: seq<Key>)
    requires AddsClosed(m, held, keys) && keys != []
    ensures Closed(m, held + {keys[0]}) && AddsClosed(m, held + {keys[0]}, keys[1..])
  {
    hide Closed;
    assert Elems(keys[..1]) == {keys[0]};
    forall n | 0 <= n <= |keys[1..]| ensures Closed(m, held + {keys[0]} + Elems(keys[1..][..n])) {
      assert keys[..n + 1] == [keys[0]] + keys[1..][..n];
      ElemsCons(keys[..n + 1]);
      assert keys[..n + 1][1..] == keys[1..][..n];
      assert held + Elems(keys[..n + 1]) == held + {keys[0]} + Elems(keys[1..][..n]);
    }
  }

  lemma {:induction false} CommitClosedAlong(m: ManifestData, trace: seq<TraceEntry>, keys: seq<Key>, origin: Origin)
    requires ClosedAlong(m, trace) && AddsClosed(m, Held(trace), keys)
    ensures ClosedAlong(m, Commit(trace, keys, origin))
    decreases |keys|
  {
    if keys != [] {
      var next := if keys[0] in Held(trace) then trace else trace + [TraceEntry(keys[0], origin)];
      AddsClosedHead(m, Held(trace), keys);
      HeldSnoc(trace, TraceEntry(keys[0], origin));
      assert Held(next) == Held(trace) + {keys[0]};
      hide ClosedAlong, AddsClosed, Closed, Held;
      if keys[0] !in Held(trace) { ClosedAlongSnoc(m, trace, TraceEntry(keys[0], origin)); }
      CommitClosedAlong(m, next, keys[1..], origin);
    }
  }

  // A closure lists what each of its members needs ahead of that member.
  lemma NeedsComeFirst(m: ManifestData, k: Key, n: nat, j: Key)
    requires n < |Needs(m, k)| && j in Needs(m, k)[..n]
    ensures Elems(Needs(m, j)) <= Elems(Needs(m, k)[..n]) && j.kind != RelationKind
  {
    var questions, hypotheses := KeysOf(QuestionKind, RequiredQuestions(m, k)), KeysOf(HypothesisKind, RequiredHypotheses(m, k));
    var before := Needs(m, k)[..n];
    NeedsElems(m, j);
    KeysOfElems(QuestionKind, RequiredQuestions(m, k));
    KeysOfElems(HypothesisKind, RequiredHypotheses(m, k));
    assert before == (questions + hypotheses)[..n];
    if j.kind == HypothesisKind {
      assert j in hypotheses by { BeforeIs(questions, hypotheses, n, j); }
      assert questions <= before by { LateMember(questions, hypotheses, n, j); }
      NeedsAreTransitive(m, k, j);
      NeedsElems(m, k);
      hide Needs, RequiredQuestions, KeysOf;
      forall i | i in Needs(m, j) ensures i in before {
        if i != j { assert i in Elems(Needs(m, k)) && i.kind == QuestionKind; assert i in questions; }
      }
    } else {
      BeforeIs(questions, hypotheses, n, j);
    }
  }

  lemma BeforeIs(questions: seq<Key>, hypotheses: seq<Key>, n: nat, j: Key)
    requires n <= |questions + hypotheses| && j in (questions + hypotheses)[..n]
    ensures j in questions || j in hypotheses
  {
  }

  lemma LateMember(questions: seq<Key>, hypotheses: seq<Key>, n: nat, j: Key)
    requires n <= |questions + hypotheses| && j in (questions + hypotheses)[..n] && j !in questions
    ensures questions <= (questions + hypotheses)[..n]
  {
  }

  lemma NeedsAddClosed(m: ManifestData, held: set<Key>, k: Key)
    requires Closed(m, held) && Endpoints(m, held, k)
    ensures AddsClosed(m, held, Needs(m, k))
  {
    var keys := Needs(m, k);
    ClosedByNeeds(m, held, k);
    assert keys[..|keys|] == keys;
    hide Needs;
    forall n | 0 <= n <= |keys| ensures Closed(m, held + Elems(keys[..n])) {
      if n < |keys| {
        forall j | j in keys[..n] ensures Elems(Needs(m, j)) <= Elems(keys[..n]) && j.kind != RelationKind { NeedsComeFirst(m, k, n, j); }
        PartClosed(m, held, keys[..n]);
      }
    }
  }

  lemma PartClosed(m: ManifestData, held: set<Key>, keys: seq<Key>)
    requires Closed(m, held) && forall j :: j in keys ==> Elems(Needs(m, j)) <= Elems(keys) && j.kind != RelationKind
    ensures Closed(m, held + Elems(keys))
  {
    var after := held + Elems(keys);
    assert OfKind(held, HypothesisKind) <= OfKind(after, HypothesisKind);
    hide Needs, OfKind;
    forall j | j in after ensures Elems(Needs(m, j)) <= after && Endpoints(m, after, j) {
      if j in keys { assert Elems(Needs(m, j)) <= Elems(keys); }
    }
  }

  lemma WholeClosed(m: ManifestData, trace: seq<TraceEntry>)
    requires ClosedAlong(m, trace)
    ensures Closed(m, Held(trace))
  {
    assert trace[..|trace|] == trace;
  }

  lemma AdmitClosedAlong(m: ManifestData, b: Limits, s: Selection, k: Key, origin: Origin)
    requires ClosedAlong(m, s.trace) && Endpoints(m, Held(s.trace), k)
    ensures ClosedAlong(m, Admit(m, b, s, k, origin).trace)
  {
    WholeClosed(m, s.trace);
    NeedsAddClosed(m, Held(s.trace), k);
    CommitClosedAlong(m, s.trace, Needs(m, k), origin);
    hide Commit, Needs, CapacityReason, Held, ClosedAlong;
  }

  lemma LinkedClosedAlong(m: ManifestData, b: Limits, s: Selection, k: Key, linked: set<Id>)
    requires ClosedAlong(m, s.trace) && k.kind != RelationKind
    ensures ClosedAlong(m, AdmitLinked(m, b, s, k, linked).trace)
  {
    var parent := LinkedParent(m, s.trace, k, linked);
    AdmitClosedAlong(m, b, s, k, FromParent(if parent.Some? then parent.value else k));
    hide LinkedParent, Admit, ClosedAlong;
  }

  lemma RelationClosedAlong(m: ManifestData, b: Limits, s: Selection, k: Key)
    requires ClosedAlong(m, s.trace) && k.kind == RelationKind
    ensures ClosedAlong(m, AdmitRelation(m, b, s, k).trace)
  {
    hide ClosedAlong, Admit, Held, HypothesisRefs, OfKind;
    if Elems(HypothesisRefs(m, k)) <= OfKind(Held(s.trace), HypothesisKind) && Elems(HypothesisRefs(m, k)) * OfKind(Held(s.trace), HypothesisKind) != {} {
      AdmitClosedAlong(m, b, s, k, FromParent(Key(HypothesisKind, HypothesisRefs(m, k)[0])));
    }
  }

  lemma {:induction false} SeedsClosedAlong(m: ManifestData, b: Limits, s: Selection, candidates: seq<Candidate>)
    requires ClosedAlong(m, s.trace)
    ensures ClosedAlong(m, AdmitSeeds(m, b, s, candidates).trace)
    decreases |candidates|
  {
    if candidates != [] {
      var k := Key(QuestionKind, candidates[0].QuestionId());
      AdmitClosedAlong(m, b, s, k, SeedOrigin(candidates[0]));
      hide ClosedAlong, Admit;
      SeedsClosedAlong(m, b, Admit(m, b, s, k, SeedOrigin(candidates[0])), candidates[1..]);
    }
  }

  lemma {:induction false} WorkClosedAlong(m: ManifestData, b: Limits, s: Selection, work: seq<Key>, linked: set<Id>)
    requires ClosedAlong(m, s.trace) && forall k :: k in work ==> k.kind != RelationKind
    ensures ClosedAlong(m, AdmitAll(m, b, s, work, linked).trace)
    decreases |work|
  {
    if work != [] {
      hide ClosedAlong, AdmitLinked;
      LinkedClosedAlong(m, b, s, work[0], linked);
      WorkClosedAlong(m, b, AdmitLinked(m, b, s, work[0], linked), work[1..], linked);
    }
  }

  lemma {:induction false} RelationsClosedAlong(m: ManifestData, b: Limits, s: Selection, work: seq<Key>)
    requires ClosedAlong(m, s.trace) && forall k :: k in work ==> k.kind == RelationKind
    ensures ClosedAlong(m, AdmitRelations(m, b, s, work).trace)
    decreases |work|
  {
    if work != [] {
      hide ClosedAlong, AdmitRelation;
      RelationClosedAlong(m, b, s, work[0]);
      RelationsClosedAlong(m, b, AdmitRelation(m, b, s, work[0]), work[1..]);
    }
  }

  lemma ExpandClosedAlong(m: ManifestData, b: Limits, s: Selection)
    requires ClosedAlong(m, s.trace)
    ensures ClosedAlong(m, FirstLayer(m, b, s).trace) && ClosedAlong(m, UpToEvents(m, b, s).trace)
    ensures ClosedAlong(m, UpToGaps(m, b, s).trace) && ClosedAlong(m, Expand(m, b, s).trace)
  {
    var seeds, linked := SeedIds(s.trace), Linked(m, b, s);
    hide *;
    FirstLayerIs(m, b, s);
    ExpandIs(m, b, s);
    WorkIsLinkable(m, HypothesisKind, seeds, {});
    WorkIsLinkable(m, TimelineKind, seeds, linked);
    WorkIsLinkable(m, GapKind, seeds, linked);
    RelationsOnly(m);
    WorkClosedAlong(m, b, s, Work(m, HypothesisKind, seeds, {}), {});
    WorkClosedAlong(m, b, FirstLayer(m, b, s), Work(m, TimelineKind, seeds, linked), linked);
    WorkClosedAlong(m, b, UpToEvents(m, b, s), Work(m, GapKind, seeds, linked), linked);
    RelationsClosedAlong(m, b, UpToGaps(m, b, s), Listed(m, RelationKind));
  }

  lemma RunClosedAlong(m: ManifestData, b: Limits, candidates: seq<Candidate>)
    ensures ClosedAlong(m, AdmitSeeds(m, b, NothingSelected, candidates).trace)
    ensures ClosedAlong(m, Run(m, b, candidates).trace)
  {
    var s := AdmitSeeds(m, b, NothingSelected, candidates);
    assert ClosedAlong(m, NothingSelected.trace);
    hide ClosedAlong, AdmitSeeds, Expand, SeedIds;
    SeedsClosedAlong(m, b, NothingSelected, candidates);
    ExpandClosedAlong(m, b, s);
  }

  // Everything listed is admitted ahead of the position.
  predicate AllBefore(trace: seq<TraceEntry>, at: int, kind: Kind, ids: seq<Id>) {
    forall id :: id in ids ==> exists i :: 0 <= i < at && i < |trace| && trace[i].key == Key(kind, id)
  }

  lemma BeforeByNeeds(m: ManifestData, trace: seq<TraceEntry>, at: nat, kind: Kind, ids: seq<Id>)
    requires at < |trace| && ClosedAlong(m, trace) && trace[at].key.kind != kind
    requires forall id :: id in ids ==> Key(kind, id) in Needs(m, trace[at].key)
    ensures AllBefore(trace, at, kind, ids)
  {
    hide Needs;
    var cut := trace[..at + 1];
    assert Closed(m, Held(cut));
    assert cut[at] in cut && trace[at].key in Held(cut);
    forall id | id in ids ensures exists i :: 0 <= i < at && i < |trace| && trace[i].key == Key(kind, id) {
      assert Key(kind, id) in Held(cut);
      var e :| e in cut && e.key == Key(kind, id);
      var i :| 0 <= i < |cut| && cut[i] == e;
      assert trace[i] == e;
    }
  }

  // A hypothesis comes after its questions, an event or gap after its questions and
  // hypotheses, a relation after both ends.
  ghost predicate AfterNamed(m: ManifestData, trace: seq<TraceEntry>, at: nat)
    requires at < |trace|
  {
    var k := trace[at].key;
    (forall x :: x in m.hypotheses && k == Key(HypothesisKind, x.hypothesisId) ==> AllBefore(trace, at, QuestionKind, x.questionIds)) &&
    (forall x :: x in m.timeline && k == Key(TimelineKind, x.eventId) ==>
      AllBefore(trace, at, QuestionKind, x.questionIds) && AllBefore(trace, at, HypothesisKind, x.hypothesisIds)) &&
    (forall x :: x in m.gaps && k == Key(GapKind, x.gapId) ==>
      AllBefore(trace, at, QuestionKind, x.relatedQuestionIds) && AllBefore(trace, at, HypothesisKind, x.relatedHypothesisIds)) &&
    forall x :: x in m.relations && k == Key(RelationKind, x.relationId) ==>
      AllBefore(trace, at, HypothesisKind, [x.sourceHypothesisId, x.targetHypothesisId])
  }

  lemma NeedsOwnRefs(m: ManifestData, k: Key)
    requires k.kind == HypothesisKind || k.kind == TimelineKind || k.kind == GapKind
    ensures forall id :: id in QuestionRefs(m, k) ==> Key(QuestionKind, id) in Needs(m, k)
    ensures k.kind != HypothesisKind ==> forall id :: id in HypothesisRefs(m, k) ==> Key(HypothesisKind, id) in Needs(m, k)
  {
    NeedsElems(m, k);
    var all := QuestionRefs(m, k) + QuestionsOf(m, HypothesisRefs(m, k));
    hide Needs, QuestionRefs, HypothesisRefs, StableUnique;
    forall id | id in QuestionRefs(m, k) ensures Key(QuestionKind, id) in Needs(m, k) {
      if k.kind != HypothesisKind { assert id in Elems(all); assert id in Elems(StableUnique(all)); }
    }
  }

  lemma EndsBefore(m: ManifestData, trace: seq<TraceEntry>, at: nat)
    requires at < |trace| && ClosedAlong(m, trace) && trace[at].key.kind == RelationKind
    ensures AllBefore(trace, at, HypothesisKind, HypothesisRefs(m, trace[at].key))
  {
    hide Needs, HypothesisRefs;
    var cut, ids := trace[..at + 1], HypothesisRefs(m, trace[at].key);
    assert Closed(m, Held(cut));
    assert cut[at] in cut && trace[at].key in Held(cut);
    forall id | id in ids ensures exists i :: 0 <= i < at && i < |trace| && trace[i].key == Key(HypothesisKind, id) {
      assert id in Elems(ids) && id in OfKind(Held(cut), HypothesisKind);
      var e :| e in cut && e.key == Key(HypothesisKind, id);
      var i :| 0 <= i < |cut| && cut[i] == e;
      assert trace[i] == e;
    }
  }

  lemma AfterNamedFrom(m: ManifestData, trace: seq<TraceEntry>, at: nat)
    requires UniqueIds(m) && at < |trace| && ClosedAlong(m, trace)
    ensures AfterNamed(m, trace, at)
  {
    var k := trace[at].key;
    hide UniqueIds, ClosedAlong, AllBefore, Needs, QuestionRefs, HypothesisRefs, Known, OwnEvidence;
    forall x | x in m.hypotheses && k == Key(HypothesisKind, x.hypothesisId) ensures AllBefore(trace, at, QuestionKind, x.questionIds) {
      HypothesisFields(m, x);
      NeedsOwnRefs(m, k);
      BeforeByNeeds(m, trace, at, QuestionKind, x.questionIds);
    }
    forall x | x in m.timeline && k == Key(TimelineKind, x.eventId)
      ensures AllBefore(trace, at, QuestionKind, x.questionIds) && AllBefore(trace, at, HypothesisKind, x.hypothesisIds)
    {
      EventFields(m, x);
      NeedsOwnRefs(m, k);
      BeforeByNeeds(m, trace, at, QuestionKind, x.questionIds);
      BeforeByNeeds(m, trace, at, HypothesisKind, x.hypothesisIds);
    }
    forall x | x in m.gaps && k == Key(GapKind, x.gapId)
      ensures AllBefore(trace, at, QuestionKind, x.relatedQuestionIds) && AllBefore(trace, at, HypothesisKind, x.relatedHypothesisIds)
    {
      GapFields(m, x);
      NeedsOwnRefs(m, k);
      BeforeByNeeds(m, trace, at, QuestionKind, x.relatedQuestionIds);
      BeforeByNeeds(m, trace, at, HypothesisKind, x.relatedHypothesisIds);
    }
    forall x | x in m.relations && k == Key(RelationKind, x.relationId)
      ensures AllBefore(trace, at, HypothesisKind, [x.sourceHypothesisId, x.targetHypothesisId])
    {
      RelationFields(m, x);
      EndsBefore(m, trace, at);
    }
  }

  // Nothing is admitted ahead of what it names.
  lemma NamedComeFirst(m: ManifestData, b: Limits, candidates: seq<Candidate>, at: nat)
    requires UniqueIds(m) && at < |Run(m, b, candidates).trace|
    ensures AfterNamed(m, Run(m, b, candidates).trace, at)
  {
    RunClosedAlong(m, b, candidates);
    hide Run, ClosedAlong, AfterNamed, UniqueIds;
    AfterNamedFrom(m, Run(m, b, candidates).trace, at);
  }

  // ------------------------------------------------------------------ companions

  // From one position to another the trace holds parts of one closure, under one
  // parent, and the object itself comes last.
  ghost predicate Block(m: ManifestData, trace: seq<TraceEntry>, a: int, z: int) {
    0 <= a <= z < |trace| &&
    (forall c :: a <= c <= z ==> trace[c].origin == trace[z].origin && trace[c].key in Needs(m, trace[z].key)) &&
    forall c, d :: a <= c < d <= z ==> Ahead(Needs(m, trace[z].key), trace[c].key, trace[d].key)
  }

  // The first is listed, and the second not before it.
  ghost predicate Ahead<T>(listed: seq<T>, x: T, y: T) {
    exists i :: 0 <= i < |listed| && listed[i] == x && y !in listed[..i]
  }

  ghost predicate InBlock(m: ManifestData, trace: seq<TraceEntry>, a: int, kind: Kind) {
    exists z :: Block(m, trace, a, z) && trace[z].key.kind == kind
  }

  // Every entry from here on stands in the block of an object of this kind.
  ghost predicate Blocks(m: ManifestData, trace: seq<TraceEntry>, start: nat, kind: Kind) {
    forall a :: start <= a < |trace| ==> InBlock(m, trace, a, kind)
  }

  lemma BlockStays(m: ManifestData, trace: seq<TraceEntry>, longer: seq<TraceEntry>, a: int, kind: Kind)
    requires trace <= longer && InBlock(m, trace, a, kind)
    ensures InBlock(m, longer, a, kind)
  {
    hide Needs, Ahead;
    var z :| Block(m, trace, a, z) && trace[z].key.kind == kind;
    assert longer[z] == trace[z];
    forall c | a <= c <= z ensures longer[c] == trace[c] {}
    assert Block(m, longer, a, z);
  }

  lemma BlocksJoin(m: ManifestData, one: seq<TraceEntry>, two: seq<TraceEntry>, start: nat, kind: Kind)
    requires one <= two && start <= |one| && Blocks(m, one, start, kind) && Blocks(m, two, |one|, kind)
    ensures Blocks(m, two, start, kind)
  {
    hide InBlock;
    forall a | start <= a < |two| ensures InBlock(m, two, a, kind) {
      if a < |one| { BlockStays(m, one, two, a, kind); }
    }
  }

  lemma {:induction false} CommitSplit(trace: seq<TraceEntry>, xs: seq<Key>, k: Key, origin: Origin)
    ensures Commit(trace, xs + [k], origin) == Commit(Commit(trace, xs, origin), [k], origin)
    decreases |xs|
  {
    if xs == [] {
      assert xs + [k] == [k];
    } else {
      assert (xs + [k])[0] == xs[0] && (xs + [k])[1..] == xs[1..] + [k];
      hide Held;
      CommitSplit(if xs[0] in Held(trace) then trace else trace + [TraceEntry(xs[0], origin)], xs[1..], k, origin);
    }
  }

  lemma {:induction false} CommitHeld(trace: seq<TraceEntry>, keys: seq<Key>, origin: Origin)
    requires Elems(keys) <= Held(trace)
    ensures Commit(trace, keys, origin) == trace
    decreases |keys|
  {
    if keys != [] {
      ElemsCons(keys);
      CommitHeld(trace, keys[1..], origin);
    }
  }

  lemma {:induction false} CommitTailOrigin(trace: seq<TraceEntry>, keys: seq<Key>, origin: Origin)
    ensures
      var t := Commit(trace, keys, origin);
      trace <= t &&
      (forall a :: |trace| <= a < |t| ==> t[a].key in keys && t[a].origin == origin && t[a].key !in Held(trace)) &&
      forall a, b :: |trace| <= a < b < |t| ==> Ahead(keys, t[a].key, t[b].key)
    decreases |keys|
  {
    hide Ahead;
    if keys != [] {
      var next := if keys[0] in Held(trace) then trace else trace + [TraceEntry(keys[0], origin)];
      var t := Commit(next, keys[1..], origin);
      HeldSnoc(trace, TraceEntry(keys[0], origin));
      hide Held;
      CommitTailOrigin(next, keys[1..], origin);
      assert keys[0] !in Held(trace) ==> t[|trace|] == next[|trace|];
      forall a, b | |trace| <= a < b < |t| ensures Ahead(keys, t[a].key, t[b].key) {
        if a < |next| { AheadFirst(keys, t[b].key); } else { AheadLater(keys, t[a].key, t[b].key); }
      }
    }
  }

  lemma AheadFirst<T>(listed: seq<T>, y: T)
    requires listed != []
    ensures Ahead(listed, listed[0], y)
  {
    assert listed[0] == listed[0] && y !in listed[..0];
  }

  lemma AheadLater<T>(listed: seq<T>, x: T, y: T)
    requires listed != [] && Ahead(listed[1..], x, y) && y != listed[0]
    ensures Ahead(listed, x, y)
  {
    var i :| 0 <= i < |listed[1..]| && listed[1..][i] == x && y !in listed[1..][..i];
    assert listed[..i + 1] == [listed[0]] + listed[1..][..i];
    assert listed[i + 1] == x;
  }

  // A new object ends what its commit appends.
  lemma CommitEnds(trace: seq<TraceEntry>, keys: seq<Key>, k: Key, origin: Origin)
    requires k !in Held(trace) && k !in keys
    ensures var t := Commit(trace, keys + [k], origin); |t| > |trace| && t[|t| - 1].key == k
  {
    CommitSplit(trace, keys, k, origin);
    CommitHolds(trace, keys, origin);
    hide Held;
    var front := Commit(trace, keys, origin);
    assert k !in Held(front);
    assert Commit(front, [k], origin) == front + [TraceEntry(k, origin)];
  }

  lemma CommitIsBlock(m: ManifestData, trace: seq<TraceEntry>, k: Key, origin: Origin)
    requires Closed(m, Held(trace)) && k.kind != QuestionKind
    ensures var t := Commit(trace, Needs(m, k), origin); trace <= t && Blocks(m, t, |trace|, k.kind)
  {
    var t := Commit(trace, Needs(m, k), origin);
    CommitTailOrigin(trace, Needs(m, k), origin);
    hide Commit, Needs, Held, Ahead;
    if k in Held(trace) {
      CommitHeld(trace, Needs(m, k), origin);
    } else {
      NewObjectEnds(m, trace, k, origin);
      hide Closed;
      forall a | |trace| <= a < |t| ensures InBlock(m, t, a, k.kind) { assert Block(m, t, a, |t| - 1); }
    }
  }

  lemma NewObjectEnds(m: ManifestData, trace: seq<TraceEntry>, k: Key, origin: Origin)
    requires k !in Held(trace) && k.kind != QuestionKind
    ensures var t := Commit(trace, Needs(m, k), origin); |t| > |trace| && t[|t| - 1].key == k
  {
    var keys := KeysOf(QuestionKind, RequiredQuestions(m, k)) + KeysOf(HypothesisKind, RequiredHypotheses(m, k));
    KeysOfElems(QuestionKind, RequiredQuestions(m, k));
    KeysOfElems(HypothesisKind, RequiredHypotheses(m, k));
    assert k !in keys && Needs(m, k) == keys + [k];
    hide Needs, KeysOf, Held, Commit;
    CommitEnds(trace, keys, k, origin);
  }

  lemma AdmitIsBlock(m: ManifestData, b: Limits, s: Selection, k: Key, origin: Origin)
    requires Closed(m, Held(s.trace)) && k.kind != QuestionKind
    ensures var t := Admit(m, b, s, k, origin); s.trace <= t.trace && Blocks(m, t.trace, |s.trace|, k.kind)
  {
    CommitIsBlock(m, s.trace, k, origin);
    hide Commit, Needs, Held, CapacityReason, Closed, InBlock;
  }

  lemma LinkedIsBlock(m: ManifestData, b: Limits, s: Selection, k: Key, linked: set<Id>)
    requires ClosedAlong(m, s.trace) && k.kind != QuestionKind
    ensures var t := AdmitLinked(m, b, s, k, linked); s.trace <= t.trace && Blocks(m, t.trace, |s.trace|, k.kind)
  {
    var parent := LinkedParent(m, s.trace, k, linked);
    WholeClosed(m, s.trace);
    AdmitIsBlock(m, b, s, k, FromParent(if parent.Some? then parent.value else k));
    hide LinkedParent, Admit, Closed, Held, Blocks, ClosedAlong;
  }

  lemma {:induction false} WorkBlocks(m: ManifestData, b: Limits, s: Selection, work: seq<Key>, linked: set<Id>, kind: Kind)
    requires ClosedAlong(m, s.trace) && kind != QuestionKind && kind != RelationKind && forall k :: k in work ==> k.kind == kind
    ensures var t := AdmitAll(m, b, s, work, linked); s.trace <= t.trace && Blocks(m, t.trace, |s.trace|, kind)
    decreases |work|
  {
    if work != [] {
      hide ClosedAlong, AdmitLinked, Blocks;
      var next := AdmitLinked(m, b, s, work[0], linked);
      LinkedClosedAlong(m, b, s, work[0], linked);
      LinkedIsBlock(m, b, s, work[0], linked);
      WorkBlocks(m, b, next, work[1..], linked, kind);
      BlocksJoin(m, next.trace, AdmitAll(m, b, s, work, linked).trace, |s.trace|, kind);
    }
  }

  // The stage an expansion entry stands in, by the object its block ends with: a
  // hypothesis of the first layer, an event or a gap.
  ghost predicate Companions(m: ManifestData, trace: seq<TraceEntry>, first: nat, start: nat) {
    forall a :: start <= a < |trace| && trace[a].key.kind != RelationKind ==>
      if a < first then InBlock(m, trace, a, HypothesisKind)
      else InBlock(m, trace, a, TimelineKind) || InBlock(m, trace, a, GapKind)
  }

  lemma ExpandCompanions(m: ManifestData, b: Limits, s: Selection)
    requires ClosedAlong(m, s.trace) && |Held(s.trace)| == |s.trace| && OnlyKinds(s.trace, {QuestionKind})
    ensures s.trace <= FirstLayer(m, b, s).trace <= Expand(m, b, s).trace
    ensures Companions(m, Expand(m, b, s).trace, |FirstLayer(m, b, s).trace|, |s.trace|)
  {
    var seeds, linked := SeedIds(s.trace), Linked(m, b, s);
    var first, events, gaps, t := FirstLayer(m, b, s), UpToEvents(m, b, s), UpToGaps(m, b, s), Expand(m, b, s);
    hide *;
    ExpandClosedAlong(m, b, s);
    FirstLayerIs(m, b, s);
    ExpandIs(m, b, s);
    WorkIsLinkable(m, HypothesisKind, seeds, {});
    WorkIsLinkable(m, TimelineKind, seeds, linked);
    WorkIsLinkable(m, GapKind, seeds, linked);
    RelationsOnly(m);
    StageCounts(m, b, s);
    WorkBlocks(m, b, s, Work(m, HypothesisKind, seeds, {}), {}, HypothesisKind);
    WorkBlocks(m, b, first, Work(m, TimelineKind, seeds, linked), linked, TimelineKind);
    WorkBlocks(m, b, events, Work(m, GapKind, seeds, linked), linked, GapKind);
    RelationTail(m, b, gaps, Listed(m, RelationKind));
    CompanionsJoin(m, s.trace, first.trace, events.trace, gaps.trace, t.trace);
  }

  lemma StageCounts(m: ManifestData, b: Limits, s: Selection)
    requires |Held(s.trace)| == |s.trace|
    ensures |Held(UpToGaps(m, b, s).trace)| == |UpToGaps(m, b, s).trace|
  {
    var seeds, linked := SeedIds(s.trace), Linked(m, b, s);
    hide *;
    FirstLayerIs(m, b, s);
    WorkIsLinkable(m, HypothesisKind, seeds, {});
    WorkIsLinkable(m, TimelineKind, seeds, linked);
    WorkIsLinkable(m, GapKind, seeds, linked);
    WorkTail(m, b, s, Work(m, HypothesisKind, seeds, {}), {}, HypothesisKind);
    WorkTail(m, b, FirstLayer(m, b, s), Work(m, TimelineKind, seeds, linked), linked, TimelineKind);
    WorkTail(m, b, UpToEvents(m, b, s), Work(m, GapKind, seeds, linked), linked, GapKind);
  }

  lemma CompanionsJoin(
    m: ManifestData, seeds: seq<TraceEntry>, first: seq<TraceEntry>, events: seq<TraceEntry>, gaps: seq<TraceEntry>, t: seq<TraceEntry>)
    requires seeds <= first <= events <= gaps && TailKinds(gaps, t, {RelationKind})
    requires Blocks(m, first, |seeds|, HypothesisKind) && Blocks(m, events, |first|, TimelineKind) && Blocks(m, gaps, |events|, GapKind)
    ensures first <= t && Companions(m, t, |first|, |seeds|)
  {
    hide InBlock;
    forall a | |seeds| <= a < |t| && t[a].key.kind != RelationKind
      ensures if a < |first| then InBlock(m, t, a, HypothesisKind) else InBlock(m, t, a, TimelineKind) || InBlock(m, t, a, GapKind)
    {
      if a < |first| { BlockStays(m, first, t, a, HypothesisKind); }
      else if a < |events| { BlockStays(m, events, t, a, TimelineKind); }
      else if a < |gaps| { BlockStays(m, gaps, t, a, GapKind); }
    }
  }

  // The object's record names this question or hypothesis, itself or, for an event
  // or gap, through a hypothesis it names.
  predicate Brings(m: ManifestData, k: Key, j: Key) {
    (exists h :: h in m.hypotheses && k == Key(HypothesisKind, h.hypothesisId) && j.kind == QuestionKind && j.id in h.questionIds) ||
    (exists x :: x in m.timeline && k == Key(TimelineKind, x.eventId) && NamesOf(m, x.questionIds, x.hypothesisIds, j)) ||
    exists x :: x in m.gaps && k == Key(GapKind, x.gapId) && NamesOf(m, x.relatedQuestionIds, x.relatedHypothesisIds, j)
  }

  predicate NamesOf(m: ManifestData, questionIds: seq<Id>, hypothesisIds: seq<Id>, j: Key) {
    (j.kind == HypothesisKind && j.id in hypothesisIds) ||
    (j.kind == QuestionKind &&
      (j.id in questionIds || exists h :: h in m.hypotheses && h.hypothesisId in hypothesisIds && j.id in h.questionIds))
  }

  // The entry comes in with a later object that brings it, with nothing between them
  // but more of what that object brings, all under the object's own parent.
  ghost predicate Arrives(m: ManifestData, trace: seq<TraceEntry>, a: int) {
    exists z :: ArrivesWith(m, trace, a, z)
  }

  ghost predicate ArrivesWith(m: ManifestData, trace: seq<TraceEntry>, a: int, z: int) {
    0 <= a < z < |trace| &&
    (forall c :: a <= c < z ==> trace[c].origin == trace[z].origin && Brings(m, trace[z].key, trace[c].key)) &&
    forall c, d :: a <= c < d < z ==> InTurn(m, trace[z].key, trace[c].key, trace[d].key)
  }

  // What one object brings comes in as its record names it: questions before
  // hypotheses, its own questions before those of its hypotheses.
  ghost predicate InTurn(m: ManifestData, k: Key, x: Key, y: Key) {
    (y.kind == QuestionKind ==> x.kind == QuestionKind) &&
    (forall h :: h in m.hypotheses && k == Key(HypothesisKind, h.hypothesisId) ==> Ahead(h.questionIds, x.id, y.id)) &&
    (forall e :: e in m.timeline && k == Key(TimelineKind, e.eventId) ==> NamedInTurn(m, e.questionIds, e.hypothesisIds, x, y)) &&
    forall g :: g in m.gaps && k == Key(GapKind, g.gapId) ==> NamedInTurn(m, g.relatedQuestionIds, g.relatedHypothesisIds, x, y)
  }

  ghost predicate NamedInTurn(m: ManifestData, questionIds: seq<Id>, hypothesisIds: seq<Id>, x: Key, y: Key) {
    (x.kind == HypothesisKind && y.kind == HypothesisKind ==> Ahead(hypothesisIds, x.id, y.id)) &&
    (x.kind == QuestionKind && y.kind == QuestionKind ==>
      Ahead(questionIds, x.id, y.id) || (y.id !in questionIds && ThroughHypotheses(m, hypothesisIds, x.id, y.id)))
  }

  // The first hypothesis that names either names the one ahead of the other.
  ghost predicate ThroughHypotheses(m: ManifestData, hypothesisIds: seq<Id>, x: Id, y: Id) {
    exists i :: 0 <= i < |hypothesisIds| && HypothesisNamesAhead(m, hypothesisIds[i], x, y) &&
      forall j :: 0 <= j < i ==> HypothesisOmits(m, hypothesisIds[j], y)
  }

  ghost predicate HypothesisNamesAhead(m: ManifestData, id: Id, x: Id, y: Id) {
    exists h :: h in m.hypotheses && h.hypothesisId == id && Ahead(h.questionIds, x, y)
  }

  predicate HypothesisOmits(m: ManifestData, id: Id, q: Id) {
    forall h :: h in m.hypotheses && h.hypothesisId == id ==> q !in h.questionIds
  }

  lemma AheadSplit<T>(front: seq<T>, back: seq<T>, x: T, y: T)
    requires Ahead(front + back, x, y)
    ensures Ahead(front, x, y) || (y !in front && Ahead(back, x, y))
  {
    var i :| 0 <= i < |front + back| && (front + back)[i] == x && y !in (front + back)[..i];
    if i < |front| {
      assert (front + back)[..i] == front[..i];
      assert front[i] == x;
    } else {
      assert (front + back)[..i] == front + back[..i - |front|];
      assert back[i - |front|] == x;
    }
  }

  lemma AheadJoin<T>(front: seq<T>, back: seq<T>, x: T, y: T)
    requires Ahead(front, x, y)
    ensures Ahead(front + back, x, y)
  {
    var i :| 0 <= i < |front| && front[i] == x && y !in front[..i];
    assert (front + back)[i] == x && (front + back)[..i] == front[..i];
  }

  lemma {:induction false} StableAhead(values: seq<Id>, x: Id, y: Id)
    requires Ahead(StableUnique(values), x, y)
    ensures Ahead(values, x, y)
  {
    if values != [] {
      var front, last := values[..|values| - 1], values[|values| - 1];
      assert values == front + [last];
      StableSnoc(values);
      hide StableUnique;
      if Ahead(StableUnique(front), x, y) {
        StableAhead(front, x, y);
        AheadJoin(front, [last], x, y);
      } else {
        AheadSplit(StableUnique(front), [last], x, y);
        assert x == last && y !in front by { assert y in front ==> y in Elems(StableUnique(front)); }
        assert values[|front|] == x && values[..|front|] == front;
      }
    }
  }

  lemma StableSnoc(values: seq<Id>)
    requires values != []
    ensures
      var front, last := values[..|values| - 1], values[|values| - 1];
      StableUnique(values) == if last in front then StableUnique(front) else StableUnique(front) + [last]
    ensures Elems(StableUnique(values[..|values| - 1])) == Elems(values[..|values| - 1])
  {
  }

  lemma KeysAhead(kind: Kind, ids: seq<Id>, x: Key, y: Key)
    requires Ahead(KeysOf(kind, ids), x, y) && y.kind == kind
    ensures x.kind == kind && Ahead(ids, x.id, y.id)
  {
    var keys := KeysOf(kind, ids);
    var i :| 0 <= i < |keys| && keys[i] == x && y !in keys[..i];
    forall j | 0 <= j < i ensures ids[j] != y.id { assert keys[j] == keys[..i][j] && keys[j] == Key(kind, ids[j]); }
    assert ids[i] == x.id;
  }

  lemma {:induction false} QuestionsAhead(m: ManifestData, hypothesisIds: seq<Id>, x: Id, y: Id)
    requires UniqueIds(m) && Ahead(QuestionsOf(m, hypothesisIds), x, y)
    ensures ThroughHypotheses(m, hypothesisIds, x, y)
  {
    if hypothesisIds != [] {
      var first, rest := Key(HypothesisKind, hypothesisIds[0]), hypothesisIds[1..];
      AheadSplit(QuestionRefs(m, first), QuestionsOf(m, rest), x, y);
      hide UniqueIds, Ahead, HypothesisOmits, HypothesisNamesAhead;
      if Ahead(QuestionRefs(m, first), x, y) {
        FirstNamesAhead(m, hypothesisIds[0], x, y);
        assert HypothesisNamesAhead(m, hypothesisIds[0], x, y);
      } else {
        QuestionsAhead(m, rest, x, y);
        FirstOmits(m, hypothesisIds[0], y);
        var i :| 0 <= i < |rest| && HypothesisNamesAhead(m, rest[i], x, y) && forall j :: 0 <= j < i ==> HypothesisOmits(m, rest[j], y);
        assert HypothesisNamesAhead(m, hypothesisIds[i + 1], x, y);
        forall j | 0 <= j < i + 1 ensures HypothesisOmits(m, hypothesisIds[j], y) { if j > 0 { assert hypothesisIds[j] == rest[j - 1]; } }
      }
    }
  }

  lemma FirstNamesAhead(m: ManifestData, id: Id, x: Id, y: Id)
    requires UniqueIds(m) && Ahead(QuestionRefs(m, Key(HypothesisKind, id)), x, y)
    ensures HypothesisNamesAhead(m, id, x, y)
  {
    assert Known(m, Key(HypothesisKind, id));
    RecordOf(m, Key(HypothesisKind, id));
    hide UniqueIds, Known, QuestionRefs, Ahead;
    var h :| h in m.hypotheses && h.hypothesisId == id;
    HypothesisFields(m, h);
  }

  lemma FirstOmits(m: ManifestData, id: Id, q: Id)
    requires UniqueIds(m) && q !in QuestionRefs(m, Key(HypothesisKind, id))
    ensures HypothesisOmits(m, id, q)
  {
    hide UniqueIds, QuestionRefs;
    forall h | h in m.hypotheses && h.hypothesisId == id ensures q !in h.questionIds { HypothesisFields(m, h); }
  }

  // A closure is listed as the record names it.
  lemma ListedInTurn(m: ManifestData, k: Key, x: Key, y: Key)
    requires UniqueIds(m) && Ahead(Needs(m, k), x, y) && x in Needs(m, k) && y in Needs(m, k) && x != k && y != k
    ensures InTurn(m, k, x, y)
  {
    hide UniqueIds, Needs, QuestionRefs, HypothesisRefs, RequiredQuestions, RequiredHypotheses, Ahead, NamedInTurn, Known, OwnEvidence;
    PartsInTurn(m, k, x, y);
    if k.kind == TimelineKind || k.kind == GapKind {
      RequiredInTurn(m, k, x, y);
    } else if k.kind == HypothesisKind {
      HypothesisInTurn(m, k, x, y);
    }
    forall h | h in m.hypotheses && k == Key(HypothesisKind, h.hypothesisId) ensures Ahead(h.questionIds, x.id, y.id) { HypothesisFields(m, h); }
    forall e | e in m.timeline && k == Key(TimelineKind, e.eventId) ensures NamedInTurn(m, e.questionIds, e.hypothesisIds, x, y) {
      EventFields(m, e);
    }
    forall g | g in m.gaps && k == Key(GapKind, g.gapId) ensures NamedInTurn(m, g.relatedQuestionIds, g.relatedHypothesisIds, x, y) {
      GapFields(m, g);
    }
  }

  // Questions are listed before hypotheses, each in its own order.
  lemma PartsInTurn(m: ManifestData, k: Key, x: Key, y: Key)
    requires Ahead(Needs(m, k), x, y) && x in Needs(m, k) && y in Needs(m, k) && x != k && y != k
    ensures y.kind == QuestionKind ==> x.kind == QuestionKind && Ahead(RequiredQuestions(m, k), x.id, y.id)
    ensures x.kind == HypothesisKind && y.kind == HypothesisKind ==> Ahead(RequiredHypotheses(m, k), x.id, y.id)
  {
    var questions, hypotheses := KeysOf(QuestionKind, RequiredQuestions(m, k)), KeysOf(HypothesisKind, RequiredHypotheses(m, k));
    NeedsElems(m, k);
    KeysOfElems(QuestionKind, RequiredQuestions(m, k));
    KeysOfElems(HypothesisKind, RequiredHypotheses(m, k));
    assert Needs(m, k) == questions + hypotheses + [k];
    hide Needs, Ahead, KeysOf, RequiredQuestions, RequiredHypotheses;
    AheadSplit(questions + hypotheses, [k], x, y);
    assert y in questions + hypotheses;
    AheadSplit(questions, hypotheses, x, y);
    if y.kind == QuestionKind {
      assert y in questions;
      KeysAhead(QuestionKind, RequiredQuestions(m, k), x, y);
    } else if x.kind == HypothesisKind && y.kind == HypothesisKind {
      if Ahead(questions, x, y) { AheadIn(questions, x, y); }
      KeysAhead(HypothesisKind, RequiredHypotheses(m, k), x, y);
    }
  }

  lemma AheadIn<T>(listed: seq<T>, x: T, y: T)
    requires Ahead(listed, x, y)
    ensures x in listed
  {
  }

  lemma RequiredInTurn(m: ManifestData, k: Key, x: Key, y: Key)
    requires UniqueIds(m) && (k.kind == TimelineKind || k.kind == GapKind)
    requires y.kind == QuestionKind ==> x.kind == QuestionKind && Ahead(RequiredQuestions(m, k), x.id, y.id)
    requires x.kind == HypothesisKind && y.kind == HypothesisKind ==> Ahead(RequiredHypotheses(m, k), x.id, y.id)
    ensures NamedInTurn(m, QuestionRefs(m, k), HypothesisRefs(m, k), x, y)
  {
    var qs, hs := QuestionRefs(m, k), HypothesisRefs(m, k);
    hide UniqueIds, QuestionRefs, HypothesisRefs, Ahead, StableUnique, QuestionsOf, ThroughHypotheses;
    if y.kind == QuestionKind {
      StableAhead(qs + QuestionsOf(m, hs), x.id, y.id);
      AheadSplit(qs, QuestionsOf(m, hs), x.id, y.id);
      if !Ahead(qs, x.id, y.id) { QuestionsAhead(m, hs, x.id, y.id); }
    }
  }

  lemma HypothesisInTurn(m: ManifestData, k: Key, x: Key, y: Key)
    requires k.kind == HypothesisKind && y in Needs(m, k) && y != k
    requires y.kind == QuestionKind ==> Ahead(RequiredQuestions(m, k), x.id, y.id)
    ensures Ahead(QuestionRefs(m, k), x.id, y.id)
  {
    NeedsElems(m, k);
    hide Needs, Ahead, QuestionRefs;
  }

  lemma NeedsBring(m: ManifestData, k: Key, j: Key)
    requires UniqueIds(m) && References(m) && Known(m, k) && k.kind != QuestionKind && k.kind != RelationKind && j in Needs(m, k) && j != k
    ensures Brings(m, k, j)
  {
    RecordOf(m, k);
    NeedsElems(m, k);
    NeedsAreKnown(m, k);
    if k.kind == HypothesisKind {
      hide UniqueIds, References, Known, Needs, QuestionRefs;
      var h :| h in m.hypotheses && h.hypothesisId == k.id;
      HypothesisFields(m, h);
    } else {
      LinkedClosure(m, k, j);
      hide UniqueIds, References, Needs, StableUnique;
      var qs, hs := QuestionRefs(m, k), HypothesisRefs(m, k);
      assert NamesOf(m, qs, hs, j) by { NamedBy(m, k, j); }
      hide QuestionRefs, HypothesisRefs, Known, NamesOf;
      if k.kind == TimelineKind {
        var x :| x in m.timeline && x.eventId == k.id;
        EventFields(m, x);
      } else {
        var x :| x in m.gaps && x.gapId == k.id;
        GapFields(m, x);
      }
    }
  }

  lemma NamedBy(m: ManifestData, k: Key, j: Key)
    requires UniqueIds(m) && References(m) && Known(m, k) && (k.kind == TimelineKind || k.kind == GapKind) && j in Needs(m, k) && j != k
    ensures NamesOf(m, QuestionRefs(m, k), HypothesisRefs(m, k), j)
  {
    LinkedClosure(m, k, j);
    NeedsElems(m, k);
    NeedsAreKnown(m, k);
    hide UniqueIds, References, Needs, QuestionRefs, HypothesisRefs, Known, RequiredQuestions;
    if j.kind == QuestionKind && j.id !in QuestionRefs(m, k) {
      var h :| h in HypothesisRefs(m, k) && j.id in QuestionRefs(m, Key(HypothesisKind, h));
      assert Key(HypothesisKind, h) in Needs(m, k);
      RecordOf(m, Key(HypothesisKind, h));
      var x :| x in m.hypotheses && x.hypothesisId == h;
      HypothesisFields(m, x);
    }
  }

  lemma BlockArrives(m: ManifestData, trace: seq<TraceEntry>, a: nat, kind: Kind)
    requires UniqueIds(m) && References(m) && |Held(trace)| == |trace| && forall e :: e in trace ==> Known(m, e.key)
    requires a < |trace| && InBlock(m, trace, a, kind) && kind != QuestionKind && kind != RelationKind && trace[a].key.kind != kind
    ensures Arrives(m, trace, a)
  {
    hide UniqueIds, References, Held, Known, Needs, Brings, InTurn, Ahead;
    var z :| Block(m, trace, a, z) && trace[z].key.kind == kind;
    forall c | a <= c < z ensures trace[c].origin == trace[z].origin && Brings(m, trace[z].key, trace[c].key) {
      NoTwice(trace, c, z);
      assert trace[z] in trace;
      NeedsBring(m, trace[z].key, trace[c].key);
    }
    forall c, d | a <= c < d < z ensures InTurn(m, trace[z].key, trace[c].key, trace[d].key) {
      NoTwice(trace, c, z);
      NoTwice(trace, d, z);
      ListedInTurn(m, trace[z].key, trace[c].key, trace[d].key);
    }
    assert ArrivesWith(m, trace, a, z);
  }

  lemma InFirstLayer(m: ManifestData, b: Limits, s: Selection, a: nat)
    requires UniqueIds(m) && References(m) && Inv(m, b, s) && NoMissingEndpoints(s.omissions)
    requires forall k :: k in Held(s.trace) ==> k.kind == QuestionKind
    requires a < |FirstLayer(m, b, s).trace| && FirstLayer(m, b, s).trace[a].key.kind == HypothesisKind
    ensures FirstLayerOf(m, Expand(m, b, s), FirstLayer(m, b, s).trace[a].key.id)
  {
    var first := FirstLayer(m, b, s);
    LinkedByRecord(m, b, s);
    hide UniqueIds, References, Inv, FirstLayerOf, FirstLayer, Expand;
    assert first.trace[a] in first.trace && first.trace[a].key in Held(first.trace);
  }

  // Every question that is no seed, and every hypothesis that names none, comes in
  // with an object that brings it.
  lemma CompanionsArrive(m: ManifestData, b: Limits, candidates: seq<Candidate>, a: nat)
    requires UniqueIds(m) && References(m) && KnownCandidates(m, candidates) && a < |Run(m, b, candidates).trace|
    ensures
      var s := Run(m, b, candidates);
      var e := s.trace[a];
      (e.key.kind == QuestionKind && e.origin.FromParent? ==> Arrives(m, s.trace, a)) &&
      (e.key.kind == HypothesisKind && !FirstLayerOf(m, s, e.key.id) ==> Arrives(m, s.trace, a))
  {
    var s, t := AdmitSeeds(m, b, NothingSelected, candidates), Run(m, b, candidates);
    hide *;
    if a < |s.trace| {
      SeedEntryAt(m, b, candidates, a);
    } else {
      RunExpands(m, b, candidates);
      SeedStageKinds(m, b, candidates);
      RunClosedAlong(m, b, candidates);
      RunKeepsInv(m, b, candidates);
      HeldAreKnown(m, b, s);
      HeldAreKnown(m, b, t);
      ExpandArrives(m, b, s, a);
    }
  }

  lemma ExpandArrives(m: ManifestData, b: Limits, s: Selection, a: nat)
    requires UniqueIds(m) && References(m) && Inv(m, b, s) && NoMissingEndpoints(s.omissions) && ClosedAlong(m, s.trace)
    requires OnlyKinds(s.trace, {QuestionKind}) && (forall k :: k in Held(s.trace) ==> k.kind == QuestionKind) && |Held(s.trace)| == |s.trace|
    requires |s.trace| <= a < |Expand(m, b, s).trace|
    requires |Held(Expand(m, b, s).trace)| == |Expand(m, b, s).trace| && forall e :: e in Expand(m, b, s).trace ==> Known(m, e.key)
    ensures
      var t := Expand(m, b, s);
      var e := t.trace[a];
      (e.key.kind == QuestionKind ==> Arrives(m, t.trace, a)) &&
      (e.key.kind == HypothesisKind && !FirstLayerOf(m, t, e.key.id) ==> Arrives(m, t.trace, a))
  {
    var t, first := Expand(m, b, s), FirstLayer(m, b, s);
    hide *;
    ExpandCompanions(m, b, s);
    if t.trace[a].key.kind == QuestionKind || t.trace[a].key.kind == HypothesisKind {
      CompanionAt(m, t.trace, |first.trace|, |s.trace|, a);
      if t.trace[a].key.kind == HypothesisKind && a < |first.trace| {
        assert first.trace[a] == t.trace[a];
        InFirstLayer(m, b, s, a);
      } else if a < |first.trace| {
        BlockArrives(m, t.trace, a, HypothesisKind);
      } else if InBlock(m, t.trace, a, TimelineKind) {
        BlockArrives(m, t.trace, a, TimelineKind);
      } else {
        BlockArrives(m, t.trace, a, GapKind);
      }
    }
  }

  lemma CompanionAt(m: ManifestData, trace: seq<TraceEntry>, first: nat, start: nat, a: nat)
    requires Companions(m, trace, first, start) && start <= a < |trace| && trace[a].key.kind != RelationKind
    ensures if a < first then InBlock(m, trace, a, HypothesisKind) else InBlock(m, trace, a, TimelineKind) || InBlock(m, trace, a, GapKind)
  {
    hide InBlock;
  }

  lemma HeldAreKnown(m: ManifestData, b: Limits, s: Selection)
    requires Inv(m, b, s)
    ensures |Held(s.trace)| == |s.trace| && forall e :: e in s.trace ==> Known(m, e.key)
  {
    forall e | e in s.trace ensures Known(m, e.key) { assert e.key in Held(s.trace); }
  }

  lemma RunExpands(m: ManifestData, b: Limits, candidates: seq<Candidate>)
    requires |AdmitSeeds(m, b, NothingSelected, candidates).trace| < |Run(m, b, candidates).trace|
    ensures Run(m, b, candidates) == Expand(m, b, AdmitSeeds(m, b, NothingSelected, candidates))
  {
    hide AdmitSeeds, Expand;
  }

  lemma SeedEntryAt(m: ManifestData, b: Limits, candidates: seq<Candidate>, a: nat)
    requires References(m) && KnownCandidates(m, candidates) && a < |AdmitSeeds(m, b, NothingSelected, candidates).trace|
    ensures a < |Run(m, b, candidates).trace|
    ensures var e := Run(m, b, candidates).trace[a]; e.origin.FromSeed? && e.key.kind == QuestionKind
  {
    var s, t := AdmitSeeds(m, b, NothingSelected, candidates), Run(m, b, candidates);
    SeedStageLeads(m, b, candidates);
    SeedStageKinds(m, b, candidates);
    hide AdmitSeeds, Run, Inv, References, KnownCandidates, FromCandidates, Held;
    assert s.trace[a] in s.trace && t.trace[a] == s.trace[a];
    SeedEntry(candidates, s.trace, s.trace[a]);
  }
}
