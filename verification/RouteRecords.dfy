// The bounded pass read off the manifest's records: what becomes of every
// question, hypothesis, event, gap and relation, in terms of their own fields.

module RouteRecords {
  import opened Common
  import opened AtlasModels
  import opened SemanticRoute
  import opened RouteGraph
  import opened RouteRun
  import opened RouteInvariant
  import opened RouteTheorems

  predicate Admitted(s: Selection, kind: Kind, id: Id) {
    exists e :: e in s.trace && e.key == Key(kind, id)
  }

  predicate Omitted(s: Selection, kind: Kind, id: Id) {
    exists o :: o in s.omissions && o.key == Key(kind, id)
  }

  // In exactly one of trace and omissions.
  predicate Once(s: Selection, kind: Kind, id: Id) {
    Admitted(s, kind, id) != Omitted(s, kind, id)
  }

  predicate Seeded(s: Selection, id: Id) {
    exists e :: e in s.trace && e.key.id == id && e.origin.FromSeed?
  }

  predicate NamesSeed(s: Selection, questionIds: seq<Id>) {
    exists q :: q in questionIds && Seeded(s, q)
  }

  // An admitted hypothesis that names a seed.
  predicate FirstLayerOf(m: ManifestData, s: Selection, id: Id) {
    Admitted(s, HypothesisKind, id) &&
    exists h :: h in m.hypotheses && h.hypothesisId == id && NamesSeed(s, h.questionIds)
  }

  predicate NamesFirstLayer(m: ManifestData, s: Selection, hypothesisIds: seq<Id>) {
    exists h :: h in hypothesisIds && FirstLayerOf(m, s, h)
  }

  predicate EventEligible(m: ManifestData, s: Selection, x: TimelineEvent) {
    NamesSeed(s, x.questionIds) || NamesFirstLayer(m, s, x.hypothesisIds)
  }

  predicate GapEligible(m: ManifestData, s: Selection, x: Gap) {
    NamesSeed(s, x.relatedQuestionIds) || NamesFirstLayer(m, s, x.relatedHypothesisIds)
  }

  predicate RelationEligible(s: Selection, x: Relation) {
    Admitted(s, HypothesisKind, x.sourceHypothesisId) || Admitted(s, HypothesisKind, x.targetHypothesisId)
  }

  // --------------------------------------------------------- keys and records

  lemma HypothesisFields(m: ManifestData, h: Hypothesis)
    requires UniqueIds(m) && h in m.hypotheses
    ensures var k := Key(HypothesisKind, h.hypothesisId);
            Known(m, k) && QuestionRefs(m, k) == h.questionIds && HypothesisRefs(m, k) == []
    ensures OwnEvidence(m, Key(HypothesisKind, h.hypothesisId)) == Elems(h.evidenceIds) + Elems(h.counterevidenceIds)
  {
    FindByKey(HypothesisKey, m.hypotheses, h);
  }

  lemma EventFields(m: ManifestData, x: TimelineEvent)
    requires UniqueIds(m) && x in m.timeline
    ensures var k := Key(TimelineKind, x.eventId);
            Known(m, k) && QuestionRefs(m, k) == x.questionIds && HypothesisRefs(m, k) == x.hypothesisIds
    ensures OwnEvidence(m, Key(TimelineKind, x.eventId)) == Elems(x.evidenceIds)
  {
    FindByKey(TimelineEventKey, m.timeline, x);
  }

  lemma GapFields(m: ManifestData, x: Gap)
    requires UniqueIds(m) && x in m.gaps
    ensures var k := Key(GapKind, x.gapId);
            Known(m, k) && QuestionRefs(m, k) == x.relatedQuestionIds && HypothesisRefs(m, k) == x.relatedHypothesisIds
  {
    FindByKey(GapKey, m.gaps, x);
  }

  lemma RelationFields(m: ManifestData, x: Relation)
    requires UniqueIds(m) && x in m.relations
    ensures var k := Key(RelationKind, x.relationId);
            Known(m, k) && HypothesisRefs(m, k) == [x.sourceHypothesisId, x.targetHypothesisId]
    ensures OwnEvidence(m, Key(RelationKind, x.relationId)) == Elems(x.evidenceIds)
  {
    FindByKey(RelationKey, m.relations, x);
  }

  lemma QuestionFields(m: ManifestData, q: Question)
    requires UniqueIds(m) && q in m.questions
    ensures Known(m, Key(QuestionKind, q.questionId))
    ensures OwnEvidence(m, Key(QuestionKind, q.questionId)) == Elems(q.evidenceIds)
  {
    FindByKey(QuestionKey, m.questions, q);
  }

  // A known key has a record.
  lemma RecordOf(m: ManifestData, k: Key)
    requires Known(m, k)
    ensures
      match k.kind
      case QuestionKind => exists x :: x in m.questions && x.questionId == k.id
      case HypothesisKind => exists x :: x in m.hypotheses && x.hypothesisId == k.id
      case RelationKind => exists x :: x in m.relations && x.relationId == k.id
      case TimelineKind => exists x :: x in m.timeline && x.eventId == k.id
      case GapKind => exists x :: x in m.gaps && x.gapId == k.id
  {
    match k.kind
    case QuestionKind => assert QuestionKey(FindBy(QuestionKey, m.questions, k.id).value) == k.id;
    case HypothesisKind => assert HypothesisKey(FindBy(HypothesisKey, m.hypotheses, k.id).value) == k.id;
    case RelationKind => assert RelationKey(FindBy(RelationKey, m.relations, k.id).value) == k.id;
    case TimelineKind => assert TimelineEventKey(FindBy(TimelineEventKey, m.timeline, k.id).value) == k.id;
    case GapKind => assert GapKey(FindBy(GapKey, m.gaps, k.id).value) == k.id;
  }

  lemma HeldIsAdmitted(s: Selection, kind: Kind, id: Id)
    ensures Admitted(s, kind, id) <==> Key(kind, id) in Held(s.trace)
    ensures Omitted(s, kind, id) <==> Key(kind, id) in Refused(s.omissions)
    ensures Seeded(s, id) <==> id in SeedIds(s.trace)
  {
  }

  lemma SeedNamed(s: Selection, questionIds: seq<Id>)
    ensures NamesSeed(s, questionIds) <==> Elems(questionIds) * SeedIds(s.trace) != {}
  {
    forall q ensures Seeded(s, q) <==> q in SeedIds(s.trace) { HeldIsAdmitted(s, QuestionKind, q); }
    hide Seeded, SeedIds;
    if NamesSeed(s, questionIds) {
      var q :| q in questionIds && Seeded(s, q);
      assert q in Elems(questionIds) * SeedIds(s.trace);
    }
    if q :| q in Elems(questionIds) * SeedIds(s.trace) { assert q in questionIds && Seeded(s, q); }
  }

  lemma LinkedIsFirstLayer(m: ManifestData, s: Selection, id: Id)
    requires UniqueIds(m) && forall k :: k in Held(s.trace) ==> Known(m, k)
    ensures id in SeedLinked(m, s) <==> FirstLayerOf(m, s, id)
  {
    var k := Key(HypothesisKind, id);
    HeldIsAdmitted(s, HypothesisKind, id);
    hide Admitted, NamesSeed, UniqueIds;
    forall h | h in m.hypotheses && h.hypothesisId == id
      ensures NamesSeed(s, h.questionIds) <==> Elems(QuestionRefs(m, k)) * SeedIds(s.trace) != {}
    {
      HypothesisFields(m, h);
      SeedNamed(s, h.questionIds);
    }
    if k in Held(s.trace) { RecordOf(m, k); }
    hide QuestionRefs, Known;
  }

  lemma LinkedNamed(m: ManifestData, s: Selection, hypothesisIds: seq<Id>)
    requires UniqueIds(m) && forall k :: k in Held(s.trace) ==> Known(m, k)
    ensures NamesFirstLayer(m, s, hypothesisIds) <==> Elems(hypothesisIds) * SeedLinked(m, s) != {}
  {
    forall h ensures h in SeedLinked(m, s) <==> FirstLayerOf(m, s, h) { LinkedIsFirstLayer(m, s, h); }
    hide FirstLayerOf, SeedLinked, Held, Known, UniqueIds;
    if NamesFirstLayer(m, s, hypothesisIds) {
      var h :| h in hypothesisIds && FirstLayerOf(m, s, h);
      assert h in Elems(hypothesisIds) * SeedLinked(m, s);
    }
    if h :| h in Elems(hypothesisIds) * SeedLinked(m, s) { assert h in hypothesisIds && FirstLayerOf(m, s, h); }
  }

  lemma TouchesByRecord(m: ManifestData, s: Selection, x: Relation)
    requires UniqueIds(m) && x in m.relations
    ensures Touches(m, OfKind(Held(s.trace), HypothesisKind), Key(RelationKind, x.relationId)) <==> RelationEligible(s, x)
  {
    RelationFields(m, x);
    HeldIsAdmitted(s, HypothesisKind, x.sourceHypothesisId);
    HeldIsAdmitted(s, HypothesisKind, x.targetHypothesisId);
    hide Held, UniqueIds, Admitted, HypothesisRefs, Known;
    var hypotheses := OfKind(Held(s.trace), HypothesisKind);
    var ends := Elems([x.sourceHypothesisId, x.targetHypothesisId]);
    assert x.sourceHypothesisId in hypotheses <==> Key(HypothesisKind, x.sourceHypothesisId) in Held(s.trace);
    assert x.targetHypothesisId in hypotheses <==> Key(HypothesisKind, x.targetHypothesisId) in Held(s.trace);
    assert ends == {x.sourceHypothesisId, x.targetHypothesisId};
    assert ends * hypotheses != {} <==> x.sourceHypothesisId in hypotheses || x.targetHypothesisId in hypotheses by {
      if x.sourceHypothesisId in hypotheses { assert x.sourceHypothesisId in ends * hypotheses; }
      if x.targetHypothesisId in hypotheses { assert x.targetHypothesisId in ends * hypotheses; }
    }
  }

  // ------------------------------------------------------ nothing is dropped

  // Wanted, record by record.
  lemma WantedByRecord(m: ManifestData, candidates: seq<Candidate>, s: Selection)
    requires UniqueIds(m) && forall k :: k in Held(s.trace) ==> Known(m, k)
    ensures forall c :: c in candidates ==> Wanted(m, candidates, s, Key(QuestionKind, c.QuestionId()))
    ensures forall h :: h in m.hypotheses ==>
              (Wanted(m, candidates, s, Key(HypothesisKind, h.hypothesisId)) <==> NamesSeed(s, h.questionIds))
    ensures forall x :: x in m.timeline ==>
              (Wanted(m, candidates, s, Key(TimelineKind, x.eventId)) <==> EventEligible(m, s, x))
    ensures forall x :: x in m.gaps ==> (Wanted(m, candidates, s, Key(GapKind, x.gapId)) <==> GapEligible(m, s, x))
    ensures forall x :: x in m.relations ==>
              (Wanted(m, candidates, s, Key(RelationKind, x.relationId)) <==> RelationEligible(s, x))
  {
    hide UniqueIds, Held, SeedIds, Known, NamesSeed, NamesFirstLayer, RelationEligible, Touches, QuestionRefs, HypothesisRefs, SeedLinked;
    forall h | h in m.hypotheses
      ensures Wanted(m, candidates, s, Key(HypothesisKind, h.hypothesisId)) <==> NamesSeed(s, h.questionIds)
    {
      HypothesisFields(m, h);
      SeedNamed(s, h.questionIds);
    }
    forall x | x in m.timeline ensures Wanted(m, candidates, s, Key(TimelineKind, x.eventId)) <==> EventEligible(m, s, x) {
      EventFields(m, x);
      SeedNamed(s, x.questionIds);
      LinkedNamed(m, s, x.hypothesisIds);
    }
    forall x | x in m.gaps ensures Wanted(m, candidates, s, Key(GapKind, x.gapId)) <==> GapEligible(m, s, x) {
      GapFields(m, x);
      SeedNamed(s, x.relatedQuestionIds);
      LinkedNamed(m, s, x.relatedHypothesisIds);
    }
    forall x | x in m.relations ensures Wanted(m, candidates, s, Key(RelationKind, x.relationId)) <==> RelationEligible(s, x) {
      TouchesByRecord(m, s, x);
    }
  }

  lemma SettledOnce(s: Selection, kind: Kind, id: Id)
    requires Settled(s, Key(kind, id)) && Held(s.trace) !! Refused(s.omissions)
    ensures Once(s, kind, id)
  {
    HeldIsAdmitted(s, kind, id);
    hide Admitted, Omitted, Held, Refused;
  }

  // After any run every candidate, every hypothesis that names a seed, every event
  // or gap that names a seed or an admitted hypothesis naming one, and every
  // relation with an admitted endpoint is in exactly one of trace and omissions.
  lemma EveryRecordIsAccountedFor(m: ManifestData, b: Limits, candidates: seq<Candidate>)
    requires UniqueIds(m) && References(m) && KnownCandidates(m, candidates)
    ensures
      var s := Run(m, b, candidates);
      (forall c :: c in candidates ==> Once(s, QuestionKind, c.QuestionId())) &&
      (forall h :: h in m.hypotheses && NamesSeed(s, h.questionIds) ==> Once(s, HypothesisKind, h.hypothesisId)) &&
      (forall x :: x in m.timeline && EventEligible(m, s, x) ==> Once(s, TimelineKind, x.eventId)) &&
      (forall x :: x in m.gaps && GapEligible(m, s, x) ==> Once(s, GapKind, x.gapId)) &&
      (forall x :: x in m.relations && RelationEligible(s, x) ==> Once(s, RelationKind, x.relationId))
  {
    var s := Run(m, b, candidates);
    RunKeepsInv(m, b, candidates);
    RunLosesNothing(m, b, candidates);
    assert forall k :: k in Held(s.trace) ==> Known(m, k);
    hide UniqueIds, References, Held, Refused, Known, Inv, Wanted, Settled, Once, NamesSeed, EventEligible, GapEligible, RelationEligible, Run;
    WantedByRecord(m, candidates, s);
    forall kind, id | Wanted(m, candidates, s, Key(kind, id)) ensures Once(s, kind, id) { SettledOnce(s, kind, id); }
  }

  // And nothing else is ever refused.
  lemma OnlyEligibleIsOmitted(m: ManifestData, b: Limits, candidates: seq<Candidate>, o: Omission)
    requires UniqueIds(m) && References(m) && KnownCandidates(m, candidates) && o in Run(m, b, candidates).omissions
    ensures
      var s := Run(m, b, candidates);
      match o.key.kind
      case QuestionKind => exists c :: c in candidates && c.QuestionId() == o.key.id
      case HypothesisKind => exists h :: h in m.hypotheses && h.hypothesisId == o.key.id && NamesSeed(s, h.questionIds)
      case TimelineKind => exists x :: x in m.timeline && x.eventId == o.key.id && EventEligible(m, s, x)
      case GapKind => exists x :: x in m.gaps && x.gapId == o.key.id && GapEligible(m, s, x)
      case RelationKind => exists x :: x in m.relations && x.relationId == o.key.id && RelationEligible(s, x)
  {
    var s := Run(m, b, candidates);
    RunKeepsInv(m, b, candidates);
    RunLosesNothing(m, b, candidates);
    assert o.key in Refused(s.omissions);
    assert Known(m, o.key) && forall k :: k in Held(s.trace) ==> Known(m, k);
    assert Wanted(m, candidates, s, o.key);
    RecordOf(m, o.key);
    if o.key.kind == QuestionKind { assert o.key in CandidateKeys(candidates); }
    hide UniqueIds, References, Held, Refused, Known, Inv, Wanted, NamesSeed, EventEligible, GapEligible, RelationEligible, Run;
    WantedByRecord(m, candidates, s);
  }

  // ------------------------------------------------------ nothing else comes in

  // Every held object is in the closure of a held target.
  ghost predicate Explained(m: ManifestData, targets: set<Key>, held: set<Key>) {
    forall j :: j in held ==> Behind(m, targets, held, j)
  }

  ghost predicate Behind(m: ManifestData, targets: set<Key>, held: set<Key>, j: Key) {
    exists k :: k in targets && k in held && j in Needs(m, k)
  }

  lemma ExplainedMore(m: ManifestData, targets: set<Key>, more: set<Key>, held: set<Key>)
    requires Explained(m, targets, held) && targets <= more
    ensures Explained(m, more, held)
  {
    hide Needs;
    forall j | j in held ensures Behind(m, more, held, j) {
      assert Behind(m, targets, held, j);
      var k :| k in targets && k in held && j in Needs(m, k);
    }
  }

  lemma ClosureExplained(m: ManifestData, targets: set<Key>, held: set<Key>, k: Key)
    requires Explained(m, targets, held)
    ensures Explained(m, targets + {k}, held + Elems(Needs(m, k)))
  {
    NeedsElems(m, k);
    hide Needs, Explained;
    var after := held + Elems(Needs(m, k));
    assert k in after;
    forall j | j in after ensures Behind(m, targets + {k}, after, j) {
      if j in held {
        ExplainedAt(m, targets, held, j);
        var i :| i in targets && i in held && j in Needs(m, i);
        assert i in targets + {k} && i in after;
      }
    }
    AllExplained(m, targets + {k}, after);
  }

  lemma AdmitExplained(m: ManifestData, b: Limits, s: Selection, k: Key, origin: Origin, targets: set<Key>)
    requires Explained(m, targets, Held(s.trace))
    ensures Explained(m, targets + {k}, Held(Admit(m, b, s, k, origin).trace))
  {
    hide Needs, Held, Commit, CapacityReason, Explained;
    ExplainedMore(m, targets, targets + {k}, Held(s.trace));
    ClosureExplained(m, targets, Held(s.trace), k);
    CommitHolds(s.trace, Needs(m, k), origin);
  }

  lemma ExplainedAt(m: ManifestData, targets: set<Key>, held: set<Key>, j: Key)
    requires Explained(m, targets, held) && j in held
    ensures Behind(m, targets, held, j)
  {
  }

  lemma AllExplained(m: ManifestData, targets: set<Key>, held: set<Key>)
    requires forall j :: j in held ==> Behind(m, targets, held, j)
    ensures Explained(m, targets, held)
  {
  }

  lemma {:induction false} SeedsExplained(m: ManifestData, b: Limits, s: Selection, candidates: seq<Candidate>, targets: set<Key>)
    requires Explained(m, targets, Held(s.trace))
    ensures Explained(m, targets + CandidateKeys(candidates), Held(AdmitSeeds(m, b, s, candidates).trace))
    decreases |candidates|
  {
    hide Explained, Admit, Held;
    if candidates == [] {
      assert targets + CandidateKeys(candidates) == targets;
    } else {
      var k := Key(QuestionKind, candidates[0].QuestionId());
      var next := Admit(m, b, s, k, SeedOrigin(candidates[0]));
      AdmitExplained(m, b, s, k, SeedOrigin(candidates[0]), targets);
      SeedsExplained(m, b, next, candidates[1..], targets + {k});
      CandidateKeysCons(candidates);
      assert targets + {k} + CandidateKeys(candidates[1..]) == targets + CandidateKeys(candidates);
    }
  }

  lemma {:induction false} WorkExplained(m: ManifestData, b: Limits, s: Selection, work: seq<Key>, linked: set<Id>, targets: set<Key>)
    requires Explained(m, targets, Held(s.trace))
    ensures Explained(m, targets + Elems(work), Held(AdmitAll(m, b, s, work, linked).trace))
    decreases |work|
  {
    hide Explained, Admit, Held, LinkedParent;
    if work == [] {
      assert targets + Elems(work) == targets;
    } else {
      var parent := LinkedParent(m, s.trace, work[0], linked);
      AdmitExplained(m, b, s, work[0], FromParent(if parent.Some? then parent.value else work[0]), targets);
      WorkExplained(m, b, AdmitLinked(m, b, s, work[0], linked), work[1..], linked, targets + {work[0]});
      ElemsCons(work);
      assert targets + {work[0]} + Elems(work[1..]) == targets + Elems(work);
    }
  }

  lemma {:induction false} RelationsExplained(m: ManifestData, b: Limits, s: Selection, work: seq<Key>, targets: set<Key>)
    requires Explained(m, targets, Held(s.trace))
    ensures Explained(m, targets + Elems(work), Held(AdmitRelations(m, b, s, work).trace))
    decreases |work|
  {
    hide Explained, Admit, Held, HypothesisRefs, OfKind;
    if work == [] {
      assert targets + Elems(work) == targets;
    } else {
      var next := AdmitRelation(m, b, s, work[0]);
      assert Explained(m, targets + {work[0]}, Held(next.trace)) by {
        ExplainedMore(m, targets, targets + {work[0]}, Held(s.trace));
        if next.trace != s.trace {
          AdmitExplained(m, b, s, work[0], FromParent(Key(HypothesisKind, HypothesisRefs(m, work[0])[0])), targets);
        }
      }
      RelationsExplained(m, b, next, work[1..], targets + {work[0]});
      ElemsCons(work);
      assert targets + {work[0]} + Elems(work[1..]) == targets + Elems(work);
    }
  }

  // What a run puts to the budget, beside relations.
  function Targets(m: ManifestData, candidates: seq<Candidate>, s: Selection): set<Key> {
    CandidateKeys(candidates) + Elems(Work(m, HypothesisKind, SeedIds(s.trace), {})) +
    Elems(Work(m, TimelineKind, SeedIds(s.trace), SeedLinked(m, s))) +
    Elems(Work(m, GapKind, SeedIds(s.trace), SeedLinked(m, s))) + Elems(Listed(m, RelationKind))
  }

  lemma ExpandExplained(m: ManifestData, b: Limits, s: Selection, targets: set<Key>)
    requires References(m) && Inv(m, b, s) && NoMissingEndpoints(s.omissions)
    requires (forall k :: k in Held(s.trace) ==> k.kind == QuestionKind) && Explained(m, targets, Held(s.trace))
    ensures
      var t := Expand(m, b, s);
      var seeds, linked := SeedIds(t.trace), SeedLinked(m, t);
      Explained(m, targets + Elems(Work(m, HypothesisKind, seeds, {})) + Elems(Work(m, TimelineKind, seeds, linked)) +
                   Elems(Work(m, GapKind, seeds, linked)) + Elems(Listed(m, RelationKind)), Held(t.trace))
  {
    ExpandKeepsInv(m, b, s);
    LinkedIsSeedLinked(m, b, s);
    hide References, Inv, Explained, AdmitAll, AdmitRelations, Held, SeedIds, SeedLinked, Work, Listed, NoMissingEndpoints;
    var seeds := SeedIds(s.trace);
    var first := FirstLayer(m, b, s);
    var linked := OfKind(Held(first.trace), HypothesisKind);
    var events := AdmitAll(m, b, first, Work(m, TimelineKind, seeds, linked), linked);
    var gaps := AdmitAll(m, b, events, Work(m, GapKind, seeds, linked), linked);
    var one := targets + Elems(Work(m, HypothesisKind, seeds, {}));
    var two := one + Elems(Work(m, TimelineKind, seeds, linked));
    WorkExplained(m, b, s, Work(m, HypothesisKind, seeds, {}), {}, targets);
    WorkExplained(m, b, first, Work(m, TimelineKind, seeds, linked), linked, one);
    WorkExplained(m, b, events, Work(m, GapKind, seeds, linked), linked, two);
    RelationsExplained(m, b, gaps, Listed(m, RelationKind), two + Elems(Work(m, GapKind, seeds, linked)));
  }

  lemma SeedStageExplained(m: ManifestData, b: Limits, candidates: seq<Candidate>)
    ensures Explained(m, CandidateKeys(candidates), Held(AdmitSeeds(m, b, NothingSelected, candidates).trace))
  {
    assert Explained(m, {}, Held(NothingSelected.trace));
    hide Explained, AdmitSeeds, Held;
    SeedsExplained(m, b, NothingSelected, candidates, {});
    assert {} + CandidateKeys(candidates) == CandidateKeys(candidates);
  }

  lemma SeedStageHolds(m: ManifestData, b: Limits, candidates: seq<Candidate>)
    requires References(m) && KnownCandidates(m, candidates)
    ensures
      var s := AdmitSeeds(m, b, NothingSelected, candidates);
      Inv(m, b, s) && NoMissingEndpoints(s.omissions) && forall k :: k in Held(s.trace) ==> k.kind == QuestionKind
  {
    assert Held(NothingSelected.trace) == {} && NoMissingEndpoints(NothingSelected.omissions);
    assert forall k :: k in CandidateKeys(candidates) ==> k.kind == QuestionKind;
    hide References, Inv, AdmitSeeds, Held, CandidateKeys, KnownCandidates;
    NothingSelectedInv(m, b);
    SeedsSettle(m, b, NothingSelected, candidates);
  }

  lemma RunIsExplained(m: ManifestData, b: Limits, candidates: seq<Candidate>)
    requires References(m) && KnownCandidates(m, candidates)
    ensures var s := Run(m, b, candidates); Explained(m, Targets(m, candidates, s), Held(s.trace))
  {
    var s := AdmitSeeds(m, b, NothingSelected, candidates);
    hide References, Inv, Explained, AdmitSeeds, Held, SeedIds, SeedLinked, Work, Listed, Expand, CandidateKeys, KnownCandidates;
    SeedStageExplained(m, b, candidates);
    SeedStageHolds(m, b, candidates);
    if SeedIds(s.trace) == {} {
      ExplainedMore(m, CandidateKeys(candidates), Targets(m, candidates, s), Held(s.trace));
    } else {
      ExpandExplained(m, b, s, CandidateKeys(candidates));
    }
  }

  predicate NamedByHypothesis(m: ManifestData, s: Selection, q: Id) {
    exists h :: h in m.hypotheses && Admitted(s, HypothesisKind, h.hypothesisId) && q in h.questionIds
  }

  predicate NamedByEvent(m: ManifestData, s: Selection, kind: Kind, id: Id) {
    exists x :: x in m.timeline && Admitted(s, TimelineKind, x.eventId) &&
      id in (if kind == QuestionKind then x.questionIds else x.hypothesisIds)
  }

  predicate NamedByGap(m: ManifestData, s: Selection, kind: Kind, id: Id) {
    exists x :: x in m.gaps && Admitted(s, GapKind, x.gapId) &&
      id in (if kind == QuestionKind then x.relatedQuestionIds else x.relatedHypothesisIds)
  }

  lemma {:induction false} QuestionsOfNamed(m: ManifestData, hypothesisIds: seq<Id>, q: Id)
    requires q in QuestionsOf(m, hypothesisIds)
    ensures exists h :: h in hypothesisIds && q in QuestionRefs(m, Key(HypothesisKind, h))
  {
    hide QuestionRefs;
    if q !in QuestionRefs(m, Key(HypothesisKind, hypothesisIds[0])) { QuestionsOfNamed(m, hypothesisIds[1..], q); }
    assert hypothesisIds[0] in hypothesisIds;
  }

  // The closure of an event or gap, by its references.
  lemma LinkedClosure(m: ManifestData, k: Key, j: Key)
    requires (k.kind == TimelineKind || k.kind == GapKind) && j in Needs(m, k) && j != k
    ensures j.kind == HypothesisKind ==> j.id in HypothesisRefs(m, k)
    ensures j.kind == QuestionKind && j.id !in QuestionRefs(m, k) ==>
              exists h :: h in HypothesisRefs(m, k) && j.id in QuestionRefs(m, Key(HypothesisKind, h))
    ensures j.kind == HypothesisKind || j.kind == QuestionKind
  {
    NeedsElems(m, k);
    hide Needs, QuestionRefs, HypothesisRefs, StableUnique;
    if j.kind == QuestionKind {
      var named := QuestionRefs(m, k) + QuestionsOf(m, HypothesisRefs(m, k));
      assert j.id in Elems(StableUnique(named));
      assert j.id in named;
      if j.id !in QuestionRefs(m, k) { QuestionsOfNamed(m, HypothesisRefs(m, k), j.id); }
    }
  }

  lemma TargetsByKind(m: ManifestData, candidates: seq<Candidate>, s: Selection, k: Key)
    requires k in Targets(m, candidates, s)
    ensures Known(m, k) || k in CandidateKeys(candidates)
    ensures k.kind == QuestionKind ==> k in CandidateKeys(candidates)
    ensures k.kind != QuestionKind && k.kind != RelationKind ==> Wanted(m, candidates, s, k)
  {
    WorkElems(m, HypothesisKind, SeedIds(s.trace), {});
    WorkElems(m, TimelineKind, SeedIds(s.trace), SeedLinked(m, s));
    WorkElems(m, GapKind, SeedIds(s.trace), SeedLinked(m, s));
    ListedElems(m, RelationKind);
    hide Work, Listed, SeedIds, SeedLinked, Known, Eligible;
  }

  // Why an admitted object is there.
  predicate Reason(m: ManifestData, candidates: seq<Candidate>, s: Selection, kind: Kind, id: Id) {
    match kind
    case QuestionKind =>
      (exists c :: c in candidates && c.QuestionId() == id) || NamedByHypothesis(m, s, id) ||
      NamedByEvent(m, s, QuestionKind, id) || NamedByGap(m, s, QuestionKind, id)
    case HypothesisKind =>
      (exists h :: h in m.hypotheses && h.hypothesisId == id && NamesSeed(s, h.questionIds)) ||
      NamedByEvent(m, s, HypothesisKind, id) || NamedByGap(m, s, HypothesisKind, id)
    case TimelineKind => exists x :: x in m.timeline && x.eventId == id && EventEligible(m, s, x)
    case GapKind => exists x :: x in m.gaps && x.gapId == id && GapEligible(m, s, x)
    case RelationKind =>
      exists x :: x in m.relations && x.relationId == id &&
        Admitted(s, HypothesisKind, x.sourceHypothesisId) && Admitted(s, HypothesisKind, x.targetHypothesisId)
  }

  lemma HypothesisNames(m: ManifestData, s: Selection, h: Id, q: Id)
    requires UniqueIds(m) && Known(m, Key(HypothesisKind, h)) && Key(HypothesisKind, h) in Held(s.trace)
    requires q in QuestionRefs(m, Key(HypothesisKind, h))
    ensures NamedByHypothesis(m, s, q)
  {
    RecordOf(m, Key(HypothesisKind, h));
    HeldIsAdmitted(s, HypothesisKind, h);
    hide UniqueIds, Known, QuestionRefs, Held, Admitted;
    var x :| x in m.hypotheses && x.hypothesisId == h;
    HypothesisFields(m, x);
  }

  lemma EventNames(m: ManifestData, s: Selection, k: Key, kind: Kind, id: Id)
    requires UniqueIds(m) && Known(m, k) && k in Held(s.trace) && (k.kind == TimelineKind || k.kind == GapKind)
    requires kind == QuestionKind || kind == HypothesisKind
    requires id in (if kind == QuestionKind then QuestionRefs(m, k) else HypothesisRefs(m, k))
    ensures NamedByEvent(m, s, kind, id) || NamedByGap(m, s, kind, id)
  {
    RecordOf(m, k);
    HeldIsAdmitted(s, k.kind, k.id);
    hide UniqueIds, Known, QuestionRefs, HypothesisRefs, Held, Admitted;
    if k.kind == TimelineKind {
      var x :| x in m.timeline && x.eventId == k.id;
      EventFields(m, x);
    } else {
      var x :| x in m.gaps && x.gapId == k.id;
      GapFields(m, x);
    }
  }

  lemma LinkedReason(m: ManifestData, candidates: seq<Candidate>, s: Selection, k: Key, j: Key)
    requires UniqueIds(m) && Closed(m, Held(s.trace)) && forall i :: i in Held(s.trace) ==> Known(m, i)
    requires k in Held(s.trace) && (k.kind == TimelineKind || k.kind == GapKind) && j in Needs(m, k) && j != k
    ensures Reason(m, candidates, s, j.kind, j.id)
  {
    LinkedClosure(m, k, j);
    NeedsElems(m, k);
    hide UniqueIds, Needs, QuestionRefs, Known, Held, NamedByHypothesis, NamedByEvent, NamedByGap;
    if j.kind == QuestionKind && j.id !in QuestionRefs(m, k) {
      var h :| h in HypothesisRefs(m, k) && j.id in QuestionRefs(m, Key(HypothesisKind, h));
      assert Key(HypothesisKind, h) in Elems(Needs(m, k));
      HypothesisNames(m, s, h, j.id);
    } else {
      EventNames(m, s, k, j.kind, j.id);
    }
  }

  lemma RelationEnds(m: ManifestData, s: Selection, k: Key)
    requires UniqueIds(m) && Closed(m, Held(s.trace)) && Known(m, k) && k in Held(s.trace) && k.kind == RelationKind
    ensures
      exists x :: x in m.relations && x.relationId == k.id &&
        Admitted(s, HypothesisKind, x.sourceHypothesisId) && Admitted(s, HypothesisKind, x.targetHypothesisId)
  {
    RecordOf(m, k);
    assert Endpoints(m, Held(s.trace), k);
    hide UniqueIds, Closed, Known, HypothesisRefs, Held, Admitted;
    var x :| x in m.relations && x.relationId == k.id;
    RelationFields(m, x);
    HeldIsAdmitted(s, HypothesisKind, x.sourceHypothesisId);
    HeldIsAdmitted(s, HypothesisKind, x.targetHypothesisId);
    var ends := Elems([x.sourceHypothesisId, x.targetHypothesisId]);
    assert x.sourceHypothesisId in ends && x.targetHypothesisId in ends;
  }

  lemma TargetReason(m: ManifestData, candidates: seq<Candidate>, s: Selection, k: Key)
    requires UniqueIds(m) && (forall i :: i in Held(s.trace) ==> Known(m, i)) && k in Held(s.trace)
    requires k.kind == QuestionKind ==> k in CandidateKeys(candidates)
    requires k.kind != QuestionKind ==> k.kind != RelationKind && Wanted(m, candidates, s, k)
    ensures Reason(m, candidates, s, k.kind, k.id)
  {
    RecordOf(m, k);
    hide UniqueIds, Known, Held, Wanted, NamesSeed, EventEligible, GapEligible, NamedByEvent, NamedByGap, NamedByHypothesis;
    WantedByRecord(m, candidates, s);
  }

  lemma TargetBehind(m: ManifestData, b: Limits, candidates: seq<Candidate>, j: Key) returns (k: Key)
    requires References(m) && KnownCandidates(m, candidates) && j in Held(Run(m, b, candidates).trace)
    ensures var s := Run(m, b, candidates);
            k in Targets(m, candidates, s) && k in Held(s.trace) && j in Needs(m, k)
  {
    hide *;
    RunIsExplained(m, b, candidates);
    var s := Run(m, b, candidates);
    ExplainedAt(m, Targets(m, candidates, s), Held(s.trace), j);
    k := TargetOf(m, Targets(m, candidates, s), Held(s.trace), j);
  }

  lemma TargetOf(m: ManifestData, targets: set<Key>, held: set<Key>, j: Key) returns (k: Key)
    requires Behind(m, targets, held, j)
    ensures k in targets && k in held && j in Needs(m, k)
  {
    hide Needs;
    k :| k in targets && k in held && j in Needs(m, k);
  }

  // Nothing else is ever admitted: a question is a candidate or named by an
  // admitted object, a hypothesis names a seed or is named by an admitted event or
  // gap, an event or gap is eligible, a relation joins two admitted hypotheses.
  lemma OnlyEligibleIsAdmitted(m: ManifestData, b: Limits, candidates: seq<Candidate>, e: TraceEntry)
    requires UniqueIds(m) && References(m) && KnownCandidates(m, candidates) && e in Run(m, b, candidates).trace
    ensures Reason(m, candidates, Run(m, b, candidates), e.key.kind, e.key.id)
  {
    var s, j := Run(m, b, candidates), e.key;
    RunKeepsInv(m, b, candidates);
    assert j in Held(s.trace) && Closed(m, Held(s.trace)) && forall i :: i in Held(s.trace) ==> Known(m, i);
    hide *;
    var k := TargetBehind(m, b, candidates, j);
    TargetsByKind(m, candidates, s, k);
    ReasonBehind(m, candidates, s, k, j);
  }

  lemma ReasonBehind(m: ManifestData, candidates: seq<Candidate>, s: Selection, k: Key, j: Key)
    requires UniqueIds(m) && Closed(m, Held(s.trace)) && (forall i :: i in Held(s.trace) ==> Known(m, i))
    requires k in Held(s.trace) && j in Held(s.trace) && j in Needs(m, k)
    requires k.kind == QuestionKind ==> k in CandidateKeys(candidates)
    requires k.kind != QuestionKind && k.kind != RelationKind ==> Wanted(m, candidates, s, k)
    ensures Reason(m, candidates, s, j.kind, j.id)
  {
    NeedsElems(m, k);
    if k.kind == RelationKind {
      RelationEnds(m, s, k);
    } else if j == k {
      TargetReason(m, candidates, s, k);
    } else if k.kind == HypothesisKind {
      HypothesisNames(m, s, k.id, j.id);
    } else {
      hide UniqueIds, Closed, Known, Held, Needs, Reason, Wanted;
      LinkedReason(m, candidates, s, k, j);
    }
  }
}
