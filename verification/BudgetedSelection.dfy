// The mutable object that carries out one bounded routing pass. Its id sets,
// order lists and resource sets are updated in place; Valid() ties every one of
// them to the trace, and each method is proved to take exactly the step that
// RouteRun specifies.

module BudgetedSelection {
  import opened Common
  import opened AtlasModels
  import opened SemanticRoute
  import opened RouteGraph
  import opened RouteRun
  import opened RouteInvariant
  import opened RouteTheorems
  import opened RoutePacket
  import opened RouteStages

  // The id sets and order lists that mirror a trace.
  datatype Projections = Projections(
    seedQuestionIds: set<Id>, seedQuestionOrder: seq<Id>,
    questionIds: set<Id>, questionOrder: seq<Id>, hypothesisIds: set<Id>, hypothesisOrder: seq<Id>,
    relationIds: set<Id>, relationOrder: seq<Id>, eventIds: set<Id>, eventOrder: seq<Id>,
    gapIds: set<Id>, gapOrder: seq<Id>)

  function Project(trace: seq<TraceEntry>): Projections {
    Projections(
      SeedIds(trace), SeedOrder(trace),
      OfKind(Held(trace), QuestionKind), Order(trace, QuestionKind),
      OfKind(Held(trace), HypothesisKind), Order(trace, HypothesisKind),
      OfKind(Held(trace), RelationKind), Order(trace, RelationKind),
      OfKind(Held(trace), TimelineKind), Order(trace, TimelineKind),
      OfKind(Held(trace), GapKind), Order(trace, GapKind))
  }

  lemma ProjectSeed(trace: seq<TraceEntry>, id: Id, origin: Origin)
    requires origin.FromSeed?
    ensures var p := Project(trace); Project(trace + [TraceEntry(Key(QuestionKind, id), origin)]) == Projections(
      p.seedQuestionIds + {id}, p.seedQuestionOrder + [id], p.questionIds + {id}, p.questionOrder + [id],
      p.hypothesisIds, p.hypothesisOrder, p.relationIds, p.relationOrder,
      p.eventIds, p.eventOrder, p.gapIds, p.gapOrder)
  {
    MirrorSnoc(trace, TraceEntry(Key(QuestionKind, id), origin));
  }

  lemma ProjectQuestion(trace: seq<TraceEntry>, id: Id, origin: Origin)
    requires origin.FromParent?
    ensures var p := Project(trace); Project(trace + [TraceEntry(Key(QuestionKind, id), origin)]) == Projections(
      p.seedQuestionIds, p.seedQuestionOrder, p.questionIds + {id}, p.questionOrder + [id],
      p.hypothesisIds, p.hypothesisOrder, p.relationIds, p.relationOrder,
      p.eventIds, p.eventOrder, p.gapIds, p.gapOrder)
  {
    MirrorSnoc(trace, TraceEntry(Key(QuestionKind, id), origin));
  }

  lemma ProjectHypothesis(trace: seq<TraceEntry>, id: Id, origin: Origin)
    requires origin.FromParent?
    ensures var p := Project(trace); Project(trace + [TraceEntry(Key(HypothesisKind, id), origin)]) == Projections(
      p.seedQuestionIds, p.seedQuestionOrder, p.questionIds, p.questionOrder,
      p.hypothesisIds + {id}, p.hypothesisOrder + [id], p.relationIds, p.relationOrder,
      p.eventIds, p.eventOrder, p.gapIds, p.gapOrder)
  {
    MirrorSnoc(trace, TraceEntry(Key(HypothesisKind, id), origin));
  }

  lemma ProjectRelation(trace: seq<TraceEntry>, id: Id, origin: Origin)
    requires origin.FromParent?
    ensures var p := Project(trace); Project(trace + [TraceEntry(Key(RelationKind, id), origin)]) == Projections(
      p.seedQuestionIds, p.seedQuestionOrder, p.questionIds, p.questionOrder,
      p.hypothesisIds, p.hypothesisOrder, p.relationIds + {id}, p.relationOrder + [id],
      p.eventIds, p.eventOrder, p.gapIds, p.gapOrder)
  {
    MirrorSnoc(trace, TraceEntry(Key(RelationKind, id), origin));
  }

  lemma ProjectEvent(trace: seq<TraceEntry>, id: Id, origin: Origin)
    requires origin.FromParent?
    ensures var p := Project(trace); Project(trace + [TraceEntry(Key(TimelineKind, id), origin)]) == Projections(
      p.seedQuestionIds, p.seedQuestionOrder, p.questionIds, p.questionOrder,
      p.hypothesisIds, p.hypothesisOrder, p.relationIds, p.relationOrder,
      p.eventIds + {id}, p.eventOrder + [id], p.gapIds, p.gapOrder)
  {
    MirrorSnoc(trace, TraceEntry(Key(TimelineKind, id), origin));
  }

  lemma ProjectGap(trace: seq<TraceEntry>, id: Id, origin: Origin)
    requires origin.FromParent?
    ensures var p := Project(trace); Project(trace + [TraceEntry(Key(GapKind, id), origin)]) == Projections(
      p.seedQuestionIds, p.seedQuestionOrder, p.questionIds, p.questionOrder,
      p.hypothesisIds, p.hypothesisOrder, p.relationIds, p.relationOrder,
      p.eventIds, p.eventOrder, p.gapIds + {id}, p.gapOrder + [id])
  {
    MirrorSnoc(trace, TraceEntry(Key(GapKind, id), origin));
  }

  // ----------------------------------------------------- steps over prefixes

  lemma {:induction false} CommitConcat(trace: seq<TraceEntry>, a: seq<Key>, b: seq<Key>, origin: Origin)
    ensures Commit(trace, a + b, origin) == Commit(Commit(trace, a, origin), b, origin)
    decreases |a|
  {
    if a == [] {
      assert a + b == b;
    } else {
      assert (a + b)[1..] == a[1..] + b;
      CommitConcat(if a[0] in Held(trace) then trace else trace + [TraceEntry(a[0], origin)], a[1..], b, origin);
    }
  }

  lemma QuestionNeeds(m: ManifestData, k: Key)
    requires k.kind == QuestionKind
    ensures Needs(m, k) == [k]
  {
  }

  lemma CommitOne(trace: seq<TraceEntry>, k: Key, origin: Origin)
    ensures Commit(trace, [k], origin) == if k in Held(trace) then trace else trace + [TraceEntry(k, origin)]
  {
  }

  lemma CommitNothing(trace: seq<TraceEntry>, origin: Origin)
    ensures Commit(trace, [], origin) == trace
  {
  }

  lemma NoKeys(kind: Kind)
    ensures KeysOf(kind, []) == []
  {
  }

  lemma HeldHypotheses(trace: seq<TraceEntry>)
    ensures Project(trace).hypothesisIds == OfKind(Held(trace), HypothesisKind)
    ensures Project(trace).seedQuestionIds == SeedIds(trace)
  {
  }

  // The id sets answer membership in the trace.
  lemma IsHeld(trace: seq<TraceEntry>, k: Key)
    ensures k in Held(trace) <==>
      match k.kind
      case QuestionKind => k.id in Project(trace).questionIds
      case HypothesisKind => k.id in Project(trace).hypothesisIds
      case RelationKind => k.id in Project(trace).relationIds
      case TimelineKind => k.id in Project(trace).eventIds
      case GapKind => k.id in Project(trace).gapIds
  {
    assert k == Key(k.kind, k.id);
  }

  lemma KeysOfSnoc(kind: Kind, ids: seq<Id>, i: nat)
    requires i < |ids|
    ensures KeysOf(kind, ids[..i + 1]) == KeysOf(kind, ids[..i]) + [Key(kind, ids[i])]
  {
    assert ids[..i + 1] == ids[..i] + [ids[i]];
    MapConcat(id => Key(kind, id), ids[..i], [ids[i]]);
    assert KeysOf(kind, ids[..i + 1]) == KeysOf(kind, ids[..i]) + KeysOf(kind, [ids[i]]);
  }

  lemma {:induction false} FilterAll<T>(p: T -> bool, s: seq<T>)
    requires forall x :: x in s ==> p(x)
    ensures Filter(p, s) == s
  {
    if s != [] { FilterAll(p, s[1..]); }
  }

  lemma EvidenceOfUnion(m: ManifestData, a: set<Key>, b: set<Key>)
    ensures EvidenceOf(m, a + b) == EvidenceOf(m, a) + EvidenceOf(m, b)
    ensures SourcesOf(m, EvidenceOf(m, a + b)) == SourcesOf(m, EvidenceOf(m, a)) + SourcesOf(m, EvidenceOf(m, b))
  {
  }

  lemma OfKindUnion(a: set<Key>, b: set<Key>, kind: Kind)
    ensures OfKind(a + b, kind) == OfKind(a, kind) + OfKind(b, kind)
  {
  }

  lemma AdmitCases(m: ManifestData, b: Limits, s: Selection, k: Key, origin: Origin)
    ensures var reason := CapacityReason(m, b, Held(s.trace) + Elems(Needs(m, k)));
            Admit(m, b, s, k, origin) ==
            if reason.Some? then Selection(s.trace, Omit(s.omissions, k, reason.value))
            else Selection(Commit(s.trace, Needs(m, k), origin), s.omissions)
  {
  }

  // A commit adds the closure's resources to those held.
  lemma CommitResources(m: ManifestData, trace: seq<TraceEntry>, k: Key, origin: Origin)
    ensures var after, needs := Held(Commit(trace, Needs(m, k), origin)), Elems(Needs(m, k));
            EvidenceOf(m, after) == EvidenceOf(m, Held(trace)) + EvidenceOf(m, needs) &&
            SourcesOf(m, EvidenceOf(m, after)) == SourcesOf(m, EvidenceOf(m, Held(trace))) + SourcesOf(m, EvidenceOf(m, needs))
  {
    CommitHolds(trace, Needs(m, k), origin);
    EvidenceOfUnion(m, Held(trace), Elems(Needs(m, k)));
  }

  // A closure is committed in three parts, the object itself last.
  lemma CommitNeeds(m: ManifestData, trace: seq<TraceEntry>, k: Key, origin: Origin)
    requires k !in Held(trace) && k.kind != QuestionKind
    ensures
      var first := Commit(trace, KeysOf(QuestionKind, RequiredQuestions(m, k)), origin);
      var second := Commit(first, KeysOf(HypothesisKind, RequiredHypotheses(m, k)), origin);
      Commit(trace, Needs(m, k), origin) == second + [TraceEntry(k, origin)]
  {
    var q, h := KeysOf(QuestionKind, RequiredQuestions(m, k)), KeysOf(HypothesisKind, RequiredHypotheses(m, k));
    CommitConcat(trace, q + h, [k], origin);
    CommitConcat(trace, q, h, origin);
    CommitHolds(trace, q, origin);
    CommitHolds(Commit(trace, q, origin), h, origin);
    KeysOfElems(QuestionKind, RequiredQuestions(m, k));
    KeysOfElems(HypothesisKind, RequiredHypotheses(m, k));
    CommitOne(Commit(Commit(trace, q, origin), h, origin), k, origin);
  }

  lemma OfKindKeys(kind: Kind, ids: seq<Id>, other: Kind)
    ensures OfKind(Elems(KeysOf(kind, ids)), other) == if kind == other then Elems(ids) else {}
  {
    KeysOfElems(kind, ids);
    forall id ensures id in OfKind(Elems(KeysOf(kind, ids)), other) <==> kind == other && id in ids {
      assert id in OfKind(Elems(KeysOf(kind, ids)), other) <==> Key(other, id) in KeysOf(kind, ids);
    }
  }

  lemma NeedsParts(m: ManifestData, k: Key)
    ensures Elems(Needs(m, k)) == Elems(KeysOf(QuestionKind, RequiredQuestions(m, k))) +
                                  Elems(KeysOf(HypothesisKind, RequiredHypotheses(m, k))) + {k}
  {
    var q, h := KeysOf(QuestionKind, RequiredQuestions(m, k)), KeysOf(HypothesisKind, RequiredHypotheses(m, k));
    ElemsConcat(q, h);
    ElemsConcat(q + h, [k]);
  }

  // The closure of one object, kind by kind.
  lemma NeedsByKind(m: ManifestData, k: Key, kind: Kind)
    ensures OfKind(Elems(Needs(m, k)), kind) ==
            (if kind == QuestionKind then Elems(RequiredQuestions(m, k)) else {}) +
            (if kind == HypothesisKind then Elems(RequiredHypotheses(m, k)) else {}) +
            (if k.kind == kind then {k.id} else {})
  {
    var q, h := Elems(KeysOf(QuestionKind, RequiredQuestions(m, k))), Elems(KeysOf(HypothesisKind, RequiredHypotheses(m, k)));
    NeedsParts(m, k);
    OfKindUnion(q + h, {k}, kind);
    OfKindUnion(q, h, kind);
    OfKindKeys(QuestionKind, RequiredQuestions(m, k), kind);
    OfKindKeys(HypothesisKind, RequiredHypotheses(m, k), kind);
    assert OfKind({k}, kind) == if k.kind == kind then {k.id} else {};
  }

  // What _resource_closure collects for the listed objects.
  function ClosureEvidence(m: ManifestData, questions: seq<Id>, hypotheses: seq<Id>, extra: seq<Id>): set<Id> {
    Elems(extra) + EvidenceOf(m, Elems(KeysOf(QuestionKind, questions))) +
    EvidenceOf(m, Elems(KeysOf(HypothesisKind, hypotheses)))
  }

  // Collected over an object's closure it is the evidence of that closure.
  lemma ClosureEvidenceOfNeeds(m: ManifestData, k: Key, extra: seq<Id>)
    requires Elems(extra) == OwnEvidence(m, k)
    ensures ClosureEvidence(m, RequiredQuestions(m, k), RequiredHypotheses(m, k), extra) == EvidenceOf(m, Elems(Needs(m, k)))
  {
    var q, h := Elems(KeysOf(QuestionKind, RequiredQuestions(m, k))), Elems(KeysOf(HypothesisKind, RequiredHypotheses(m, k)));
    NeedsParts(m, k);
    EvidenceOfUnion(m, q + h, {k});
    EvidenceOfUnion(m, q, h);
    EvidenceOfOne(m, k);
  }

  lemma EvidenceOfOne(m: ManifestData, k: Key)
    ensures EvidenceOf(m, {k}) == OwnEvidence(m, k) && EvidenceOf(m, {}) == {}
  {
  }

  lemma OneKey(k: Key)
    ensures Elems(KeysOf(k.kind, [k.id])) == {k} && Elems(KeysOf(k.kind, [])) == {} && Elems<Id>([]) == {}
    ensures KeysOf(k.kind, [k.id]) == [k] && KeysOf(k.kind, []) == []
  {
    assert KeysOf(k.kind, [k.id]) == [k] && KeysOf(k.kind, []) == [];
    assert Elems([k]) == {k};
  }

  lemma ClosureEvidenceOfQuestion(m: ManifestData, id: Id)
    ensures ClosureEvidence(m, [id], [], []) == EvidenceOf(m, Elems(Needs(m, Key(QuestionKind, id))))
  {
    OneKey(Key(QuestionKind, id));
    OneKey(Key(HypothesisKind, id));
    NeedsParts(m, Key(QuestionKind, id));
    EvidenceOfOne(m, Key(QuestionKind, id));
  }

  lemma ClosureEvidenceOfHypothesis(m: ManifestData, id: Id)
    ensures var k := Key(HypothesisKind, id);
            ClosureEvidence(m, RequiredQuestions(m, k), [id], []) == EvidenceOf(m, Elems(Needs(m, k)))
  {
    var k := Key(HypothesisKind, id);
    var q := Elems(KeysOf(QuestionKind, RequiredQuestions(m, k)));
    OneKey(k);
    NeedsParts(m, k);
    EvidenceOfUnion(m, q, {k});
    assert q + {} + {k} == q + {k};
  }

  // The demand some objects put on each id set.
  predicate Demands(
    keys: set<Key>, questions: set<Id>, hypotheses: set<Id>, relations: set<Id>, events: set<Id>, gaps: set<Id>)
  {
    questions == OfKind(keys, QuestionKind) && hypotheses == OfKind(keys, HypothesisKind) &&
    relations == OfKind(keys, RelationKind) && events == OfKind(keys, TimelineKind) && gaps == OfKind(keys, GapKind)
  }

  lemma QuestionDemand(m: ManifestData, id: Id)
    ensures Demands(Elems(Needs(m, Key(QuestionKind, id))), {id}, {}, {}, {}, {})
  {
    var k := Key(QuestionKind, id);
    QuestionNeeds(m, k);
    assert Elems([k]) == {k};
  }

  lemma LinkedDemand(m: ManifestData, k: Key, counted: seq<Id>)
    requires k.kind != QuestionKind && k.kind != RelationKind
    requires counted == if k.kind == HypothesisKind then [k.id] else RequiredHypotheses(m, k)
    ensures Demands(
      Elems(Needs(m, k)), Elems(RequiredQuestions(m, k)), Elems(counted), {},
      if k.kind == TimelineKind then {k.id} else {}, if k.kind == GapKind then {k.id} else {})
  {
    hide Needs, KeysOf, RequiredQuestions, OfKind;
    assert Elems([k.id]) == {k.id};
    if k.kind == HypothesisKind { HypothesisNeedsNone(m, k); }
    NeedsByKind(m, k, QuestionKind);
    NeedsByKind(m, k, HypothesisKind);
    NeedsByKind(m, k, RelationKind);
    NeedsByKind(m, k, TimelineKind);
    NeedsByKind(m, k, GapKind);
  }

  lemma HypothesisNeedsNone(m: ManifestData, k: Key)
    requires k.kind == HypothesisKind
    ensures RequiredHypotheses(m, k) == [] && Elems<Id>([]) == {}
  {
  }

  lemma RelationDemand(m: ManifestData, id: Id)
    ensures Demands(Elems(Needs(m, Key(RelationKind, id))), {}, {}, {id}, {}, {})
    ensures Needs(m, Key(RelationKind, id)) == [Key(RelationKind, id)]
  {
    var k := Key(RelationKind, id);
    assert Needs(m, k) == [k];
    assert Elems([k]) == {k};
  }

  class BudgetedRouteSelection {
    const manifest: ManifestData
    const budget: RouteBudget
    var seedQuestionIds: set<Id>
    var questionIds: set<Id>
    var hypothesisIds: set<Id>
    var relationIds: set<Id>
    var eventIds: set<Id>
    var gapIds: set<Id>
    var evidenceIds: set<Id>
    var sourceIds: set<Id>

    var seedQuestionOrder: seq<Id>
    var questionOrder: seq<Id>
    var hypothesisOrder: seq<Id>
    var relationOrder: seq<Id>
    var eventOrder: seq<Id>
    var gapOrder: seq<Id>
    var trace: seq<TraceEntry>
    var omissions: seq<Omission>

    ghost function View(): Selection
      reads this
    {
      Selection(trace, omissions)
    }

    function Fields(): Projections
      reads this
    {
      Projections(
        seedQuestionIds, seedQuestionOrder, questionIds, questionOrder, hypothesisIds, hypothesisOrder,
        relationIds, relationOrder, eventIds, eventOrder, gapIds, gapOrder)
    }

    // Every id set and order list mirrors the trace.
    ghost predicate Mirrors()
      reads this
    {
      Fields() == Project(trace)
    }

    // The resources are exactly those the held objects name: none missing, none
    // left over.
    ghost predicate ExactResources()
      reads this
    {
      evidenceIds == EvidenceOf(manifest, Held(trace)) && sourceIds == SourcesOf(manifest, evidenceIds)
    }

    ghost predicate Valid()
      reads this
    {
      Mirrors() && ExactResources()
    }

    constructor (m: Manifest, b: RouteBudget)
      ensures Valid() && manifest == m && budget == b && View() == NothingSelected
    {
      manifest, budget := m, b;
      seedQuestionIds, questionIds, hypothesisIds, relationIds := {}, {}, {}, {};
      eventIds, gapIds, evidenceIds, sourceIds := {}, {}, {}, {};
      seedQuestionOrder, questionOrder, hypothesisOrder, relationOrder := [], [], [], [];
      eventOrder, gapOrder, trace, omissions := [], [], [], [];
      new;
      NothingSelectedInv(m, b);
      assert Held([]) == {};
      assert forall kind :: OfKind({}, kind) == {};
      assert EvidenceOf(m, {}) == {} && SourcesOf(m, {}) == {};
    }

    // Evidence and sources behind the listed objects.
    method ResourceClosure(questions: seq<Id>, hypotheses: seq<Id>, extra: seq<Id>)
      returns (evidence: set<Id>, sources: set<Id>)
      requires References(manifest)
      requires forall id :: id in questions ==> Known(manifest, Key(QuestionKind, id))
      requires forall id :: id in hypotheses ==> Known(manifest, Key(HypothesisKind, id))
      requires Elems(extra) <= EvidenceIds(manifest.evidence)
      ensures evidence == ClosureEvidence(manifest, questions, hypotheses, extra)
      ensures sources == SourcesOf(manifest, evidence)
    {
      hide EvidenceOf, SourcesOf, KeysOf, References;
      OneKey(Key(QuestionKind, ""));
      OneKey(Key(HypothesisKind, ""));
      EvidenceOfOne(manifest, Key(QuestionKind, ""));
      evidence := Elems(extra);
      for i := 0 to |questions|
        invariant evidence == Elems(extra) + EvidenceOf(manifest, Elems(KeysOf(QuestionKind, questions[..i])))
      {
        assert Known(manifest, Key(QuestionKind, questions[i]));
        evidence := evidence + Elems(FindBy(QuestionKey, manifest.questions, questions[i]).value.evidenceIds);
        EvidenceOfSnoc(QuestionKind, questions, i);
      }
      assert questions[..|questions|] == questions;
      ghost var fromQuestions := evidence;
      for i := 0 to |hypotheses|
        invariant evidence == fromQuestions + EvidenceOf(manifest, Elems(KeysOf(HypothesisKind, hypotheses[..i])))
      {
        assert Known(manifest, Key(HypothesisKind, hypotheses[i]));
        var hypothesis := FindBy(HypothesisKey, manifest.hypotheses, hypotheses[i]).value;
        evidence := evidence + Elems(hypothesis.evidenceIds);
        evidence := evidence + Elems(hypothesis.counterevidenceIds);
        EvidenceOfSnoc(HypothesisKind, hypotheses, i);
      }
      assert hypotheses[..|hypotheses|] == hypotheses;
      NamedEvidenceExists(Elems(KeysOf(QuestionKind, questions)));
      NamedEvidenceExists(Elems(KeysOf(HypothesisKind, hypotheses)));
      EvidenceFound(evidence);
      sources := set id | id in evidence :: FindBy(EvidenceKey, manifest.evidence, id).value.sourceId;
    }

    // Every collected evidence ID has a record, whose sources are looked up.
    lemma EvidenceFound(ids: set<Id>)
      requires ids <= EvidenceIds(manifest.evidence)
      ensures forall id :: id in ids ==> FindBy(EvidenceKey, manifest.evidence, id).Some?
      ensures (set id | id in ids :: FindBy(EvidenceKey, manifest.evidence, id).value.sourceId) == SourcesOf(manifest, ids)
    {
    }

    lemma NamedEvidenceExists(keys: set<Key>)
      requires References(manifest)
      ensures EvidenceOf(manifest, keys) <= EvidenceIds(manifest.evidence)
    {
      ResourcesExist(manifest, keys);
    }

    lemma EvidenceOfSnoc(kind: Kind, ids: seq<Id>, i: nat)
      requires i < |ids|
      ensures EvidenceOf(manifest, Elems(KeysOf(kind, ids[..i + 1])))
           == EvidenceOf(manifest, Elems(KeysOf(kind, ids[..i]))) + OwnEvidence(manifest, Key(kind, ids[i]))
    {
      KeysOfSnoc(kind, ids, i);
      DistinctSnoc(KeysOf(kind, ids[..i]), Key(kind, ids[i]));
      EvidenceOfUnion(manifest, Elems(KeysOf(kind, ids[..i])), {Key(kind, ids[i])});
      assert EvidenceOf(manifest, {Key(kind, ids[i])}) == OwnEvidence(manifest, Key(kind, ids[i]));
    }

    // The first budget that the demanded objects, on top of what is held, overrun.
    method CheckCapacity(
      ghost demand: set<Key>, questions: set<Id>, hypotheses: set<Id>, relations: set<Id>,
      events: set<Id>, gaps: set<Id>, evidence: set<Id>, sources: set<Id>)
      returns (reason: Option<OmissionReason>)
      requires Mirrors() && ExactResources()
      requires Demands(demand, questions, hypotheses, relations, events, gaps)
      requires evidence == EvidenceOf(manifest, demand) && sources == SourcesOf(manifest, evidence)
      ensures reason == CapacityReason(manifest, budget, Held(trace) + demand)
    {
      hide OfKind, EvidenceOf, SourcesOf, Held, Order, SeedOrder, SeedIds;
      OfKindUnion(Held(trace), demand, QuestionKind);
      OfKindUnion(Held(trace), demand, HypothesisKind);
      OfKindUnion(Held(trace), demand, RelationKind);
      OfKindUnion(Held(trace), demand, TimelineKind);
      OfKindUnion(Held(trace), demand, GapKind);
      EvidenceOfUnion(manifest, Held(trace), demand);
      if |questionIds + questions| > budget.maxQuestions { return Some(QuestionBudget); }
      if |hypothesisIds + hypotheses| > budget.maxLinkedHypotheses { return Some(HypothesisBudget); }
      if |relationIds + relations| > budget.maxRelations { return Some(RelationBudget); }
      if |eventIds + events| > budget.maxTimelineEvents { return Some(TimelineBudget); }
      if |gapIds + gaps| > budget.maxGaps { return Some(GapBudget); }
      if |evidenceIds + evidence| > budget.maxEvidence { return Some(EvidenceBudget); }
      if |sourceIds + sources| > budget.maxSources { return Some(SourceBudget); }
      return None;
    }

    method OmitObject(k: Key, reason: OmissionReason)
      modifies this`omissions
      ensures omissions == Omit(old(omissions), k, reason)
    {
      if exists o :: o in omissions && o.key == k { return; }
      omissions := omissions + [Omission(k, reason)];
    }

    method ClearOmission(k: Key)
      modifies this`omissions
      ensures omissions == Filter((o: Omission) => o.key != k, old(omissions))
      ensures k !in Refused(old(omissions)) ==> omissions == old(omissions)
    {
      if k !in Refused(omissions) { FilterAll((o: Omission) => o.key != k, omissions); }
      omissions := Filter((o: Omission) => o.key != k, omissions);
    }

    // Adds one object to its id set and order list and to the trace; a seed
    // also joins the seed set.
    method Append(k: Key, origin: Origin)
      requires Mirrors() && (origin.FromSeed? ==> k.kind == QuestionKind)
      modifies this`seedQuestionIds, this`seedQuestionOrder, this`questionIds, this`questionOrder,
               this`hypothesisIds, this`hypothesisOrder, this`relationIds, this`relationOrder,
               this`eventIds, this`eventOrder, this`gapIds, this`gapOrder, this`trace
      ensures Mirrors() && trace == old(trace) + [TraceEntry(k, origin)]
    {
      hide Project;
      if origin.FromSeed? {
        ProjectSeed(trace, k.id, origin);
        questionIds, questionOrder := questionIds + {k.id}, questionOrder + [k.id];
        seedQuestionIds, seedQuestionOrder := seedQuestionIds + {k.id}, seedQuestionOrder + [k.id];
      } else {
        match k.kind
        case QuestionKind =>
          ProjectQuestion(trace, k.id, origin);
          questionIds, questionOrder := questionIds + {k.id}, questionOrder + [k.id];
        case HypothesisKind =>
          ProjectHypothesis(trace, k.id, origin);
          hypothesisIds, hypothesisOrder := hypothesisIds + {k.id}, hypothesisOrder + [k.id];
        case RelationKind =>
          ProjectRelation(trace, k.id, origin);
          relationIds, relationOrder := relationIds + {k.id}, relationOrder + [k.id];
        case TimelineKind =>
          ProjectEvent(trace, k.id, origin);
          eventIds, eventOrder := eventIds + {k.id}, eventOrder + [k.id];
        case GapKind =>
          ProjectGap(trace, k.id, origin);
          gapIds, gapOrder := gapIds + {k.id}, gapOrder + [k.id];
      }
      trace := trace + [TraceEntry(k, origin)];
    }

    // Commits the questions or hypotheses of a closure that are not held yet.
    // The omission list is unchanged although every commit clears its object
    // from it.
    method CommitClosure(kind: Kind, ids: seq<Id>, parent: Key)
      requires Mirrors() && (kind == QuestionKind || kind == HypothesisKind)
      requires forall id :: id in ids ==> Key(kind, id) !in Refused(omissions)
      modifies this`seedQuestionIds, this`seedQuestionOrder, this`questionIds, this`questionOrder,
               this`hypothesisIds, this`hypothesisOrder, this`relationIds, this`relationOrder,
               this`eventIds, this`eventOrder, this`gapIds, this`gapOrder, this`trace, this`omissions
      ensures Mirrors() && omissions == old(omissions)
      ensures trace == Commit(old(trace), KeysOf(kind, ids), FromParent(parent))
    {
      hide Project, Commit, KeysOf;
      NoKeys(kind);
      CommitNothing(trace, FromParent(parent));
      for i := 0 to |ids|
        invariant Mirrors() && omissions == old(omissions)
        invariant trace == Commit(old(trace), KeysOf(kind, ids[..i]), FromParent(parent))
      {
        var k := Key(kind, ids[i]);
        CommitOne(trace, k, FromParent(parent));
        IsHeld(trace, k);
        KeysOfSnoc(kind, ids, i);
        CommitConcat(old(trace), KeysOf(kind, ids[..i]), [k], FromParent(parent));
        if ids[i] in (if kind == QuestionKind then questionIds else hypothesisIds) { continue; }
        ClearOmission(k);
        Append(k, FromParent(parent));
      }
      assert ids[..|ids|] == ids;
    }

    // The first seed the object names, else the first admitted linked hypothesis.
    method FindParent(questions: seq<Id>, hypotheses: seq<Id>, linked: set<Id>) returns (parent: Option<Key>)
      requires Mirrors()
      ensures parent ==
        match FirstIn(SeedOrder(trace), Elems(questions))
        case Some(q) => Some(Key(QuestionKind, q))
        case None =>
          match FirstIn(Order(trace, HypothesisKind), Elems(hypotheses) * linked)
          case Some(h) => Some(Key(HypothesisKind, h))
          case None => None
    {
      for i := 0 to |seedQuestionOrder|
        invariant FirstIn(SeedOrder(trace), Elems(questions)) == FirstIn(seedQuestionOrder[i..], Elems(questions))
      {
        if seedQuestionOrder[i] in questions { return Some(Key(QuestionKind, seedQuestionOrder[i])); }
      }
      for i := 0 to |hypothesisOrder|
        invariant FirstIn(Order(trace, HypothesisKind), Elems(hypotheses) * linked)
               == FirstIn(hypothesisOrder[i..], Elems(hypotheses) * linked)
      {
        if hypothesisOrder[i] in hypotheses && hypothesisOrder[i] in linked {
          return Some(Key(HypothesisKind, hypothesisOrder[i]));
        }
      }
      return None;
    }

    // One scored candidate: admitted as a seed, or refused.
    method AdmitSeed(c: Candidate)
      requires Valid() && References(manifest)
      requires Known(manifest, Key(QuestionKind, c.QuestionId())) && Key(QuestionKind, c.QuestionId()) !in Held(trace)
      modifies this
      ensures Valid() && View() == Admit(manifest, budget, old(View()), Key(QuestionKind, c.QuestionId()), SeedOrigin(c))
    {
      hide Inv, References, OfKind, EvidenceOf, SourcesOf, Held, Project, Commit, Needs, KeysOf, Admit, Omit, CapacityReason, Known, ClosureEvidence, Demands;
      var id := c.QuestionId();
      ghost var k := Key(QuestionKind, id);
      ghost var before := View();
      QuestionDemand(manifest, id);
      ClosureEvidenceOfQuestion(manifest, id);
      QuestionNeeds(manifest, k);
      AdmitCases(manifest, budget, before, k, SeedOrigin(c));
      CommitResources(manifest, trace, k, SeedOrigin(c));
      CommitOne(trace, k, SeedOrigin(c));
      var evidence, sources := ResourceClosure([id], [], []);
      var reason := CheckCapacity(Elems(Needs(manifest, k)), {id}, {}, {}, {}, {}, evidence, sources);
      if reason.Some? {
        OmitObject(Key(QuestionKind, id), reason.value);
        return;
      }
      Append(Key(QuestionKind, id), SeedOrigin(c));
      evidenceIds := evidenceIds + evidence;
      sourceIds := sourceIds + sources;
    }

    // A closure that fits holds nothing that was refused before. It follows from
    // the invariant (CommitKeepsInv), and makes every ClearOmission a no-op.
    ghost predicate Unrefused(k: Key)
      reads this
    {
      CapacityReason(manifest, budget, Held(trace) + Elems(Needs(manifest, k))) == None ==>
        Elems(Needs(manifest, k)) !! Refused(omissions)
    }

    method CommitAll(k: Key, questions: seq<Id>, hypotheses: seq<Id>, parent: Key)
      requires Mirrors() && k !in Held(trace) && k.kind != QuestionKind
      requires questions == RequiredQuestions(manifest, k) && hypotheses == RequiredHypotheses(manifest, k)
      requires Elems(Needs(manifest, k)) !! Refused(omissions)
      modifies this`seedQuestionIds, this`seedQuestionOrder, this`questionIds, this`questionOrder,
               this`hypothesisIds, this`hypothesisOrder, this`relationIds, this`relationOrder,
               this`eventIds, this`eventOrder, this`gapIds, this`gapOrder, this`trace, this`omissions
      ensures Mirrors() && omissions == old(omissions)
      ensures trace == Commit(old(trace), Needs(manifest, k), FromParent(parent))
    {
      hide Project, Commit, KeysOf, Needs, RequiredQuestions, RequiredHypotheses, Held;
      CommitNeeds(manifest, trace, k, FromParent(parent));
      ClosureUnrefused(k);
      CommitClosure(QuestionKind, questions, parent);
      CommitClosure(HypothesisKind, hypotheses, parent);
      ClearOmission(k);
      Append(k, FromParent(parent));
    }

    // The shared body of the hypothesis, event and gap admissions: check the
    // whole closure, then commit questions, hypotheses and the object.
    method AdmitWithClosure(
      k: Key, questions: seq<Id>, hypotheses: seq<Id>, counted: seq<Id>, extra: seq<Id>,
      questionRefs: seq<Id>, hypothesisRefs: seq<Id>, linked: set<Id>)
      requires Valid() && References(manifest) && Known(manifest, k) && k !in Held(trace) && Unrefused(k)
      requires k.kind == HypothesisKind || k.kind == TimelineKind || k.kind == GapKind
      requires questions == RequiredQuestions(manifest, k) && hypotheses == RequiredHypotheses(manifest, k)
      requires counted == if k.kind == HypothesisKind then [k.id] else hypotheses
      requires Elems(extra) <= EvidenceIds(manifest.evidence)
      requires ClosureEvidence(manifest, questions, counted, extra) == EvidenceOf(manifest, Elems(Needs(manifest, k)))
      requires questionRefs == QuestionRefs(manifest, k) && hypothesisRefs == HypothesisRefs(manifest, k)
      requires LinkedParent(manifest, trace, k, linked).Some?
      modifies this
      ensures Valid() && View() == AdmitLinked(manifest, budget, old(View()), k, linked)
    {
      hide References, OfKind, EvidenceOf, SourcesOf, Held, Project, Commit, Needs, KeysOf, Admit, Omit, CapacityReason,
           Known, ClosureEvidence, Demands, Order, SeedOrder, RequiredQuestions, RequiredHypotheses, QuestionRefs, HypothesisRefs;
      ghost var before := View();
      ghost var origin := FromParent(LinkedParent(manifest, trace, k, linked).value);
      AdmitCases(manifest, budget, before, k, origin);
      CommitResources(manifest, trace, k, origin);
      LinkedDemand(manifest, k, counted);
      ClosureKnown(k);
      var evidence, sources := ResourceClosure(questions, counted, extra);
      var reason := CheckCapacity(
        Elems(Needs(manifest, k)), Elems(questions), Elems(counted), {},
        if k.kind == TimelineKind then {k.id} else {}, if k.kind == GapKind then {k.id} else {}, evidence, sources);
      if reason.Some? {
        OmitObject(k, reason.value);
        return;
      }
      var parent := FindParent(questionRefs, hypothesisRefs, linked);
      CommitAll(k, questions, hypotheses, parent.value);
      evidenceIds := evidenceIds + evidence;
      sourceIds := sourceIds + sources;
    }

    lemma ClosureKnown(k: Key)
      requires References(manifest) && Known(manifest, k)
      ensures forall id :: id in RequiredQuestions(manifest, k) ==> Known(manifest, Key(QuestionKind, id))
      ensures forall id :: id in RequiredHypotheses(manifest, k) ==> Known(manifest, Key(HypothesisKind, id))
    {
      NeedsAreKnown(manifest, k);
      NeedsElems(manifest, k);
    }

    lemma ClosureUnrefused(k: Key)
      requires Elems(Needs(manifest, k)) !! Refused(omissions)
      ensures k !in Refused(omissions)
      ensures forall id :: id in RequiredQuestions(manifest, k) ==> Key(QuestionKind, id) !in Refused(omissions)
      ensures forall id :: id in RequiredHypotheses(manifest, k) ==> Key(HypothesisKind, id) !in Refused(omissions)
    {
      NeedsElems(manifest, k);
      forall id | id in RequiredQuestions(manifest, k) ensures Key(QuestionKind, id) !in Refused(omissions) {
        assert Key(QuestionKind, id) in Elems(Needs(manifest, k));
      }
      forall id | id in RequiredHypotheses(manifest, k) ensures Key(HypothesisKind, id) !in Refused(omissions) {
        assert Key(HypothesisKind, id) in Elems(Needs(manifest, k));
      }
      assert k in Elems(Needs(manifest, k));
    }

    method AdmitHypothesis(id: Id)
      requires Valid() && References(manifest)
      requires Known(manifest, Key(HypothesisKind, id)) && Unrefused(Key(HypothesisKind, id))
      requires LinkedParent(manifest, trace, Key(HypothesisKind, id), {}).Some?
      modifies this
      ensures Valid()
      ensures View() == if Key(HypothesisKind, id) in old(Held(trace)) then old(View())
                        else AdmitLinked(manifest, budget, old(View()), Key(HypothesisKind, id), {})
    {
      IsHeld(trace, Key(HypothesisKind, id));
      hide Inv, EvidenceOf, SourcesOf, Held, Needs, LinkedParent;
      if id in hypothesisIds { return; }
      var hypothesis := FindBy(HypothesisKey, manifest.hypotheses, id).value;
      ClosureEvidenceOfHypothesis(manifest, id);
      AdmitWithClosure(Key(HypothesisKind, id), hypothesis.questionIds, [], [id], [], hypothesis.questionIds, [], {});
    }

    method AdmitEvent(id: Id, linked: set<Id>)
      requires Valid() && References(manifest) && Key(TimelineKind, id) !in Held(trace)
      requires Known(manifest, Key(TimelineKind, id)) && Unrefused(Key(TimelineKind, id))
      requires LinkedParent(manifest, trace, Key(TimelineKind, id), linked).Some?
      modifies this
      ensures Valid() && View() == AdmitLinked(manifest, budget, old(View()), Key(TimelineKind, id), linked)
    {
      hide Inv, EvidenceOf, SourcesOf, Held, Needs, LinkedParent, Unrefused;
      var event := FindBy(TimelineEventKey, manifest.timeline, id).value;
      var requiredQuestions := StableUnique(event.questionIds + QuestionsOf(manifest, event.hypothesisIds));
      ClosureEvidenceOfNeeds(manifest, Key(TimelineKind, id), event.evidenceIds);
      AdmitWithClosure(Key(TimelineKind, id), requiredQuestions, event.hypothesisIds, event.hypothesisIds,
                       event.evidenceIds, event.questionIds, event.hypothesisIds, linked);
    }

    method AdmitGap(id: Id, linked: set<Id>)
      requires Valid() && References(manifest) && Key(GapKind, id) !in Held(trace)
      requires Known(manifest, Key(GapKind, id)) && Unrefused(Key(GapKind, id))
      requires LinkedParent(manifest, trace, Key(GapKind, id), linked).Some?
      modifies this
      ensures Valid() && View() == AdmitLinked(manifest, budget, old(View()), Key(GapKind, id), linked)
    {
      hide Inv, EvidenceOf, SourcesOf, Held, Needs, LinkedParent, Unrefused;
      var gap := FindBy(GapKey, manifest.gaps, id).value;
      var requiredQuestions := StableUnique(gap.relatedQuestionIds + QuestionsOf(manifest, gap.relatedHypothesisIds));
      assert Elems<Id>([]) == {};
      ClosureEvidenceOfNeeds(manifest, Key(GapKind, id), []);
      AdmitWithClosure(Key(GapKind, id), requiredQuestions, gap.relatedHypothesisIds, gap.relatedHypothesisIds,
                       [], gap.relatedQuestionIds, gap.relatedHypothesisIds, linked);
    }

    // A relation is put to the budget only when both endpoints are held.
    method AdmitRelationObject(id: Id)
      requires Valid() && References(manifest) && Key(RelationKind, id) !in Held(trace)
      requires Known(manifest, Key(RelationKind, id))
      modifies this
      ensures Valid()
      ensures var k := Key(RelationKind, id);
              View() == Admit(manifest, budget, old(View()), k, FromParent(Key(HypothesisKind, HypothesisRefs(manifest, k)[0])))
    {
      hide References, OfKind, EvidenceOf, SourcesOf, Held, Project, Commit, Needs, KeysOf, Admit, Omit, CapacityReason,
           Known, ClosureEvidence, Demands, HypothesisRefs, ValidGraph, Elems, EvidenceIds;
      RelationClosure(id);
      var relation := FindBy(RelationKey, manifest.relations, id).value;
      ghost var k := Key(RelationKind, id);
      ghost var origin := FromParent(Key(HypothesisKind, relation.sourceHypothesisId));
      AdmitCases(manifest, budget, View(), k, origin);
      CommitResources(manifest, trace, k, origin);
      CommitOne(trace, k, origin);
      RelationDemand(manifest, id);
      var evidence, sources := ResourceClosure([], [], relation.evidenceIds);
      var reason := CheckCapacity(Elems(Needs(manifest, k)), {}, {}, {id}, {}, {}, evidence, sources);
      if reason.Some? {
        OmitObject(Key(RelationKind, id), reason.value);
        return;
      }
      Append(Key(RelationKind, id), FromParent(Key(HypothesisKind, relation.sourceHypothesisId)));
      evidenceIds := evidenceIds + evidence;
      sourceIds := sourceIds + sources;
    }

    lemma RelationClosure(id: Id)
      requires References(manifest) && Known(manifest, Key(RelationKind, id))
      ensures FindBy(RelationKey, manifest.relations, id).Some?
      ensures var k := Key(RelationKind, id);
        var relation := FindBy(RelationKey, manifest.relations, id).value;
        ClosureEvidence(manifest, [], [], relation.evidenceIds) == EvidenceOf(manifest, Elems(Needs(manifest, k))) &&
        Elems(relation.evidenceIds) <= EvidenceIds(manifest.evidence) &&
        HypothesisRefs(manifest, k) == [relation.sourceHypothesisId, relation.targetHypothesisId]
    {
      var k := Key(RelationKind, id);
      var relation := FindBy(RelationKey, manifest.relations, id).value;
      assert OwnEvidence(manifest, k) == Elems(relation.evidenceIds);
      assert RequiredQuestions(manifest, k) == [] && RequiredHypotheses(manifest, k) == [];
      ClosureEvidenceOfNeeds(manifest, k, relation.evidenceIds);
    }

    // Hypotheses that name an admitted seed.
    method ExpandHypotheses()
      requires Valid() && References(manifest) && UniqueIds(manifest)
      requires Stage(manifest, budget, View(), seedQuestionIds, {})
      modifies this
      ensures Valid() && View() == FirstLayer(manifest, budget, old(View()))
      ensures Stage(manifest, budget, View(), old(seedQuestionIds), {}) && seedQuestionIds == old(seedQuestionIds)
      ensures KindsKept(old(trace), trace, HypothesisKind)
    {
      hide References, UniqueIds, Inv, EvidenceOf, SourcesOf, Held, Needs, LinkedParent, AdmitLinked, WorkUpTo, Work,
           AdmitAll, Listed, Known, QuestionRefs, HypothesisRefs, KindsKept;
      ghost var before, seeds := View(), seedQuestionIds;
      WorkUpToAll(manifest, HypothesisKind, seeds, {});
      AdmitNothing(manifest, budget, before, {});
      ListedLengths(manifest);
      KindsKeptReflexive(trace, HypothesisKind);
      for i := 0 to |manifest.hypotheses|
        invariant Valid() && Stage(manifest, budget, View(), seeds, {}) && seedQuestionIds == seeds
        invariant View() == AdmitAll(manifest, budget, before, WorkUpTo(manifest, HypothesisKind, seeds, {}, i), {})
        invariant KindsKept(before.trace, trace, HypothesisKind)
      {
        var hypothesis := manifest.hypotheses[i];
        ghost var k := Key(HypothesisKind, hypothesis.hypothesisId);
        HypothesisRecord(manifest, i);
        WorkUpToSteps(manifest, HypothesisKind, seeds, {}, i);
        AdmitAllSnoc(manifest, budget, before, WorkUpTo(manifest, HypothesisKind, seeds, {}, i), k, {});
        if Elems(hypothesis.questionIds) * seedQuestionIds != {} {
          ghost var last := View();
          StageStep(manifest, budget, last, seeds, {}, k);
          HypothesisMoves(manifest, budget, last, k);
          AdmitHypothesis(hypothesis.hypothesisId);
          KindsKeptStep(before.trace, last.trace, trace, HypothesisKind);
        }
      }
    }

    // Events that name an admitted seed or a first-layer hypothesis.
    method ExpandEvents(linked: set<Id>)
      requires Valid() && References(manifest) && UniqueIds(manifest)
      requires Stage(manifest, budget, View(), seedQuestionIds, linked) && NotAhead(manifest, View(), TimelineKind, 0)
      modifies this
      ensures Valid() && seedQuestionIds == old(seedQuestionIds)
      ensures View() == AdmitAll(manifest, budget, old(View()), Work(manifest, TimelineKind, old(seedQuestionIds), linked), linked)
      ensures Stage(manifest, budget, View(), old(seedQuestionIds), linked)
      ensures KindsKept(old(trace), trace, TimelineKind)
    {
      hide References, UniqueIds, Inv, EvidenceOf, SourcesOf, Held, Needs, LinkedParent, AdmitLinked, WorkUpTo, Work,
           AdmitAll, Listed, Known, QuestionRefs, HypothesisRefs, NotAhead, KindsKept;
      ghost var before, seeds := View(), seedQuestionIds;
      WorkUpToAll(manifest, TimelineKind, seeds, linked);
      AdmitNothing(manifest, budget, before, linked);
      ListedLengths(manifest);
      KindsKeptReflexive(trace, TimelineKind);
      for i := 0 to |manifest.timeline|
        invariant Valid() && Stage(manifest, budget, View(), seeds, linked) && seedQuestionIds == seeds
        invariant View() == AdmitAll(manifest, budget, before, WorkUpTo(manifest, TimelineKind, seeds, linked, i), linked)
        invariant NotAhead(manifest, View(), TimelineKind, i) && KindsKept(before.trace, trace, TimelineKind)
      {
        var event := manifest.timeline[i];
        ghost var k := Key(TimelineKind, event.eventId);
        ghost var last := View();
        EventRecord(manifest, i);
        WorkUpToSteps(manifest, TimelineKind, seeds, linked, i);
        AdmitAllSnoc(manifest, budget, before, WorkUpTo(manifest, TimelineKind, seeds, linked, i), k, linked);
        NextIsFresh(manifest, last, TimelineKind, i);
        if Elems(event.questionIds) * seedQuestionIds != {} || Elems(event.hypothesisIds) * linked != {} {
          StageStep(manifest, budget, last, seeds, linked, k);
          LinkedMoves(manifest, budget, last, k, linked, i);
          AdmitEvent(event.eventId, linked);
          KindsKeptStep(before.trace, last.trace, trace, TimelineKind);
        } else {
          AheadMoves(manifest, last, TimelineKind, i);
        }
      }
    }

    // Gaps, by the same rule.
    method ExpandGaps(linked: set<Id>)
      requires Valid() && References(manifest) && UniqueIds(manifest)
      requires Stage(manifest, budget, View(), seedQuestionIds, linked) && NotAhead(manifest, View(), GapKind, 0)
      modifies this
      ensures Valid() && seedQuestionIds == old(seedQuestionIds)
      ensures View() == AdmitAll(manifest, budget, old(View()), Work(manifest, GapKind, old(seedQuestionIds), linked), linked)
      ensures Stage(manifest, budget, View(), old(seedQuestionIds), linked)
      ensures KindsKept(old(trace), trace, GapKind)
    {
      hide References, UniqueIds, Inv, EvidenceOf, SourcesOf, Held, Needs, LinkedParent, AdmitLinked, WorkUpTo, Work,
           AdmitAll, Listed, Known, QuestionRefs, HypothesisRefs, NotAhead, KindsKept;
      ghost var before, seeds := View(), seedQuestionIds;
      WorkUpToAll(manifest, GapKind, seeds, linked);
      AdmitNothing(manifest, budget, before, linked);
      ListedLengths(manifest);
      KindsKeptReflexive(trace, GapKind);
      for i := 0 to |manifest.gaps|
        invariant Valid() && Stage(manifest, budget, View(), seeds, linked) && seedQuestionIds == seeds
        invariant View() == AdmitAll(manifest, budget, before, WorkUpTo(manifest, GapKind, seeds, linked, i), linked)
        invariant NotAhead(manifest, View(), GapKind, i) && KindsKept(before.trace, trace, GapKind)
      {
        var gap := manifest.gaps[i];
        ghost var k := Key(GapKind, gap.gapId);
        ghost var last := View();
        GapRecord(manifest, i);
        WorkUpToSteps(manifest, GapKind, seeds, linked, i);
        AdmitAllSnoc(manifest, budget, before, WorkUpTo(manifest, GapKind, seeds, linked, i), k, linked);
        NextIsFresh(manifest, last, GapKind, i);
        if Elems(gap.relatedQuestionIds) * seedQuestionIds != {} || Elems(gap.relatedHypothesisIds) * linked != {} {
          StageStep(manifest, budget, last, seeds, linked, k);
          LinkedMoves(manifest, budget, last, k, linked, i);
          AdmitGap(gap.gapId, linked);
          KindsKeptStep(before.trace, last.trace, trace, GapKind);
        } else {
          AheadMoves(manifest, last, GapKind, i);
        }
      }
    }

    // Relations that touch an admitted hypothesis.
    method ExpandRelations()
      requires Valid() && References(manifest) && UniqueIds(manifest)
      requires Inv(manifest, budget, View()) && NotAhead(manifest, View(), RelationKind, 0)
      modifies this
      ensures Valid() && View() == AdmitRelations(manifest, budget, old(View()), Listed(manifest, RelationKind))
      ensures Inv(manifest, budget, View())
    {
      hide References, UniqueIds, Inv, EvidenceOf, SourcesOf, Held, Needs, AdmitRelation, AdmitRelations, Listed, Known,
           HypothesisRefs, NotAhead, Project;
      ghost var before := View();
      AdmitNothing(manifest, budget, before, {});
      ListedLengths(manifest);
      for i := 0 to |manifest.relations|
        invariant Valid() && Inv(manifest, budget, View())
        invariant View() == AdmitRelations(manifest, budget, before, Listed(manifest, RelationKind)[..i])
        invariant NotAhead(manifest, View(), RelationKind, i)
      {
        var relation := manifest.relations[i];
        ghost var k := Key(RelationKind, relation.relationId);
        ghost var last := View();
        RelationRecord(manifest, i);
        ListedSnoc(manifest, RelationKind, i);
        AdmitRelationsSnoc(manifest, budget, before, Listed(manifest, RelationKind)[..i], k);
        NextIsFresh(manifest, last, RelationKind, i);
        RelationMoves(manifest, budget, last, k, i);
        HeldHypotheses(trace);
        var endpoints := {relation.sourceHypothesisId, relation.targetHypothesisId};
        assert endpoints == Elems(HypothesisRefs(manifest, k));
        RelationCases(manifest, budget, last, k);
        if endpoints * hypothesisIds == {} { continue; }
        if !(endpoints <= hypothesisIds) {
          OmitObject(Key(RelationKind, relation.relationId), ReferenceBudget);
          continue;
        }
        AdmitRelationObject(relation.relationId);
      }
      assert Listed(manifest, RelationKind)[..|manifest.relations|] == Listed(manifest, RelationKind);
    }

    // One declared expansion layer from the admitted seeds.
    method ExpandGraph()
      requires Valid() && References(manifest) && UniqueIds(manifest)
      requires Stage(manifest, budget, View(), seedQuestionIds, {})
      requires Lacks(trace, TimelineKind) && Lacks(trace, GapKind) && Lacks(trace, RelationKind)
      modifies this
      ensures Valid() && View() == Expand(manifest, budget, old(View())) && Inv(manifest, budget, View())
    {
      hide References, UniqueIds, Inv, Held, Work, AdmitAll, Listed, NotAhead, KindsKept, Lacks, Project, OfKind;
      ghost var before := View();
      ghost var start := trace;
      ExpandHypotheses();
      var linked := hypothesisIds;
      ghost var first := View();
      HeldHypotheses(trace);
      LacksKept(start, trace, HypothesisKind);
      LacksIsBehind(manifest, first, TimelineKind);
      ExpandEvents(linked);
      ghost var events := View();
      LacksKept(first.trace, trace, TimelineKind);
      LacksIsBehind(manifest, events, GapKind);
      ExpandGaps(linked);
      LacksKept(events.trace, trace, GapKind);
      LacksIsBehind(manifest, View(), RelationKind);
      ExpandRelations();
    }
  }
}
