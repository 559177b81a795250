// Every packet of the lexical router is closed under its own references and
// passes the schema 1.0 rules.

module LexicalRouteTheorems {
  import opened Common
  import opened Ordering
  import opened AtlasModels
  import opened RouteGraph
  import opened RouteInvariant
  import opened RoutePacket
  import opened LexicalRouter

  // ---------------------------------------------------------- reference closure

  predicate ChosenKnown(m: ManifestData, c: Chosen) {
    c.questions <= Elems(Map(QuestionKey, m.questions)) && c.hypotheses <= Elems(Map(HypothesisKey, m.hypotheses)) &&
    c.events <= Elems(Map(TimelineEventKey, m.timeline)) && c.gaps <= Elems(Map(GapKey, m.gaps))
  }

  ghost predicate PackedQuestions(questions: seq<Question>, ids: set<Id>) {
    UniqueBy(questions, QuestionKey) && QuestionIds(questions) == ids &&
    (questions == [] <==> ids == {}) && (forall q :: q in questions ==> q.traceSpans == [])
  }

  ghost predicate PackedHypotheses(hypotheses: seq<Hypothesis>, ids: set<Id>) {
    UniqueBy(hypotheses, HypothesisKey) && HypothesisIds(hypotheses) == ids &&
    (hypotheses == [] <==> ids == {}) && (forall h :: h in hypotheses ==> h.traceSpans == [])
  }

  lemma PackQuestions(m: ManifestData, ids: set<Id>)
    requires UniqueIds(m) && ids <= Elems(Map(QuestionKey, m.questions))
    ensures PackedQuestions(Map(WithoutSpans, KeepIds(QuestionKey, m.questions, ids)), ids)
  {
    hide Distinct, Elems, KeepIds;
    var kept := KeepIds(QuestionKey, m.questions, ids);
    KeptIds(QuestionKey, m.questions, ids);
    SpansCleared(kept, []);
    Unspanned(kept, []);
    MapElems(QuestionKey, Map(WithoutSpans, kept));
  }

  lemma PackHypotheses(m: ManifestData, ids: set<Id>)
    requires UniqueIds(m) && ids <= Elems(Map(HypothesisKey, m.hypotheses))
    ensures PackedHypotheses(Map(WithoutHypothesisSpans, KeepIds(HypothesisKey, m.hypotheses, ids)), ids)
  {
    hide Distinct, Elems, KeepIds;
    var kept := KeepIds(HypothesisKey, m.hypotheses, ids);
    KeptIds(HypothesisKey, m.hypotheses, ids);
    SpansCleared([], kept);
    Unspanned([], kept);
    MapElems(HypothesisKey, Map(WithoutHypothesisSpans, kept));
  }

  lemma PackedObjects(m: ManifestData, c: Chosen)
    requires UniqueIds(m) && ChosenKnown(m, c)
    ensures PackedQuestions(Map(WithoutSpans, KeepIds(QuestionKey, m.questions, c.questions)), c.questions)
    ensures PackedHypotheses(Map(WithoutHypothesisSpans, KeepIds(HypothesisKey, m.hypotheses, c.hypotheses)), c.hypotheses)
    ensures KeepIds(TimelineEventKey, m.timeline, c.events) == [] <==> c.events == {}
    ensures KeepIds(GapKey, m.gaps, c.gaps) == [] <==> c.gaps == {}
  {
    hide Distinct, Elems, KeepIds, PackedQuestions, PackedHypotheses;
    PackQuestions(m, c.questions);
    PackHypotheses(m, c.hypotheses);
    KeptIds(TimelineEventKey, m.timeline, c.events);
    KeptIds(GapKey, m.gaps, c.gaps);
  }

  lemma PackedResources(m: ManifestData, ids: set<Id>, evidence: seq<Evidence>, sources: seq<Source>)
    requires UniqueIds(m) && EvidenceCloses(m.evidence, SourceIds(m.sources)) && ids <= EvidenceIds(m.evidence)
    requires evidence == KeepIds(EvidenceKey, m.evidence, ids)
    requires sources == KeepIds(SourceKey, m.sources, set e | e in evidence :: e.sourceId)
    ensures UniqueBy(evidence, EvidenceKey) && UniqueBy(sources, SourceKey) && EvidenceIds(evidence) == ids
    ensures EvidenceCloses(evidence, SourceIds(sources))
    ensures ids == {} ==> evidence == [] && sources == []
  {
    hide Distinct, SourcesOf;
    KeptEvidence(m, ids, evidence);
    KeptSources(m, set e | e in evidence :: e.sourceId, sources);
  }

  lemma KeptExactly<T>(key: T -> Id, items: seq<T>, ids: set<Id>)
    ensures forall x :: x in KeepIds(key, items, ids) <==> x in items && key(x) in ids
  {
  }

  lemma Unspanned(questions: seq<Question>, hypotheses: seq<Hypothesis>)
    ensures forall x :: x in Map(WithoutSpans, questions) ==> exists q :: q in questions && x == WithoutSpans(q)
    ensures forall x :: x in Map(WithoutHypothesisSpans, hypotheses) ==> exists h :: h in hypotheses && x == WithoutHypothesisSpans(h)
  {
    MapElems(WithoutSpans, questions);
    MapElems(WithoutHypothesisSpans, hypotheses);
    assert forall x :: x in Map(WithoutSpans, questions) <==> x in Elems(Map(WithoutSpans, questions));
    assert forall x :: x in Map(WithoutHypothesisSpans, hypotheses) <==> x in Elems(Map(WithoutHypothesisSpans, hypotheses));
  }

  lemma RelationsKept(m: ManifestData, hypotheses: set<Id>)
    ensures forall r :: r in RelationsWithin(m, hypotheses) ==>
              r in m.relations && r.sourceHypothesisId in hypotheses && r.targetHypothesisId in hypotheses
  {
  }

  lemma NamedEvidenceIsKnown(m: ManifestData, questions: seq<Question>, hypotheses: seq<Hypothesis>,
                             relations: seq<Relation>, timeline: seq<TimelineEvent>)
    requires References(m)
    requires forall x :: x in questions ==> exists q :: q in m.questions && x == WithoutSpans(q)
    requires forall x :: x in hypotheses ==> exists h :: h in m.hypotheses && x == WithoutHypothesisSpans(h)
    requires forall r :: r in relations ==> r in m.relations
    requires forall t :: t in timeline ==> t in m.timeline
    ensures NamedEvidence(questions, hypotheses, relations, timeline) <= EvidenceIds(m.evidence)
  {
    forall x | x in questions ensures Elems(x.evidenceIds) <= EvidenceIds(m.evidence) {
      var q :| q in m.questions && x == WithoutSpans(q);
    }
    forall x | x in hypotheses ensures Elems(x.evidenceIds) + Elems(x.counterevidenceIds) <= EvidenceIds(m.evidence) {
      var h :| h in m.hypotheses && x == WithoutHypothesisSpans(h);
    }
    hide References;
  }

  lemma PackedReferencesClose(m: ManifestData, c: Chosen, questions: seq<Question>, hypotheses: seq<Hypothesis>,
                              relations: seq<Relation>, timeline: seq<TimelineEvent>, gaps: seq<Gap>)
    requires Closes(m, c.questions, c.hypotheses, c.events, c.gaps)
    requires forall x :: x in hypotheses ==> exists h :: h in m.hypotheses && h.hypothesisId in c.hypotheses && x == WithoutHypothesisSpans(h)
    requires forall r :: r in relations ==> r.sourceHypothesisId in c.hypotheses && r.targetHypothesisId in c.hypotheses
    requires forall t :: t in timeline ==> t in m.timeline && t.eventId in c.events
    requires forall g :: g in gaps ==> g in m.gaps && g.gapId in c.gaps
    ensures var ids := NamedEvidence(questions, hypotheses, relations, timeline);
            QuestionsClose(questions, ids) && HypothesesClose(hypotheses, ids, c.questions) &&
            RelationsClose(relations, ids, c.hypotheses) && TimelineCloses(timeline, ids, c.questions, c.hypotheses) &&
            GapsClose(gaps, c.questions, c.hypotheses)
  {
    var ids := NamedEvidence(questions, hypotheses, relations, timeline);
    forall x | x in hypotheses ensures Elems(x.questionIds) <= c.questions {
      var h :| h in m.hypotheses && h.hypothesisId in c.hypotheses && x == WithoutHypothesisSpans(h);
      assert Elems(h.questionIds) <= HypothesisQuestions(m.hypotheses, c.hypotheses);
    }
    forall t | t in timeline ensures Elems(t.questionIds) <= c.questions && Elems(t.hypothesisIds) <= c.hypotheses {
      assert Elems(t.questionIds) <= EventQuestions(m.timeline, c.events);
      assert Elems(t.hypothesisIds) <= EventHypotheses(m.timeline, c.events);
    }
    forall g | g in gaps ensures Elems(g.relatedQuestionIds) <= c.questions && Elems(g.relatedHypothesisIds) <= c.hypotheses {
      assert Elems(g.relatedQuestionIds) <= GapQuestions(m.gaps, c.gaps);
      assert Elems(g.relatedHypothesisIds) <= GapHypotheses(m.gaps, c.gaps);
    }
    hide Closes, HypothesisQuestions, EventQuestions, EventHypotheses, GapQuestions, GapHypotheses;
    assert forall x :: x in questions ==> Elems(x.evidenceIds) <= QuestionEvidence(questions) <= ids;
    assert forall x :: x in hypotheses ==> Elems(x.evidenceIds) + Elems(x.counterevidenceIds) <= HypothesisEvidence(hypotheses) <= ids;
    assert forall x :: x in relations ==> Elems(x.evidenceIds) <= RelationEvidence(relations) <= ids;
    assert forall x :: x in timeline ==> Elems(x.evidenceIds) <= EventEvidence(timeline) <= ids;
  }

  lemma PackedContents(m: ManifestData, c: Chosen, p: LexicalPacket)
    requires p.questions == Map(WithoutSpans, KeepIds(QuestionKey, m.questions, c.questions))
    requires p.hypotheses == Map(WithoutHypothesisSpans, KeepIds(HypothesisKey, m.hypotheses, c.hypotheses))
    requires p.relations == RelationsWithin(m, c.hypotheses)
    requires p.timeline == KeepIds(TimelineEventKey, m.timeline, c.events) && p.gaps == KeepIds(GapKey, m.gaps, c.gaps)
    ensures forall x :: x in p.questions ==> exists q :: q in m.questions && x == WithoutSpans(q)
    ensures forall x :: x in p.hypotheses ==>
              exists h :: h in m.hypotheses && h.hypothesisId in c.hypotheses && x == WithoutHypothesisSpans(h)
    ensures forall r :: r in p.relations ==>
              r in m.relations && r.sourceHypothesisId in c.hypotheses && r.targetHypothesisId in c.hypotheses
    ensures forall t :: t in p.timeline ==> t in m.timeline && t.eventId in c.events
    ensures forall g :: g in p.gaps ==> g in m.gaps && g.gapId in c.gaps
  {
    hide KeepIds, RelationsWithin, WithoutSpans, WithoutHypothesisSpans, Map;
    Unspanned(KeepIds(QuestionKey, m.questions, c.questions), KeepIds(HypothesisKey, m.hypotheses, c.hypotheses));
    KeptExactly(QuestionKey, m.questions, c.questions);
    KeptExactly(HypothesisKey, m.hypotheses, c.hypotheses);
    KeptExactly(TimelineEventKey, m.timeline, c.events);
    KeptExactly(GapKey, m.gaps, c.gaps);
    RelationsKept(m, c.hypotheses);
  }

  lemma PacketParts(p: LexicalPacket, c: Chosen, ids: set<Id>)
    requires PackedQuestions(p.questions, c.questions) && PackedHypotheses(p.hypotheses, c.hypotheses)
    requires UniqueBy(p.evidence, EvidenceKey) && UniqueBy(p.sources, SourceKey) && EvidenceIds(p.evidence) == ids
    requires EvidenceCloses(p.evidence, SourceIds(p.sources))
    requires QuestionsClose(p.questions, ids) && HypothesesClose(p.hypotheses, ids, c.questions)
    requires RelationsClose(p.relations, ids, c.hypotheses) && TimelineCloses(p.timeline, ids, c.questions, c.hypotheses)
    requires GapsClose(p.gaps, c.questions, c.hypotheses)
    ensures ReferenceClosedPacket(p.sources, p.evidence, p.questions, p.hypotheses, p.relations, p.timeline, p.gaps)
  {
    hide UniqueBy, EvidenceIds, SourceIds, QuestionIds, HypothesisIds, EvidenceCloses, QuestionsClose, HypothesesClose,
         RelationsClose, TimelineCloses, GapsClose;
  }

  lemma LexicalPacketCloses(
    m: ManifestData, query: string, terms: set<string>, manifestHash: string, matches: seq<RouteMatch>, c: Chosen)
    requires UniqueIds(m) && ChosenKnown(m, c) && Closes(m, c.questions, c.hypotheses, c.events, c.gaps)
    requires References(m)
    ensures var p := BuildLexicalPacket(m, query, terms, manifestHash, matches, c);
            ReferenceClosedPacket(p.sources, p.evidence, p.questions, p.hypotheses, p.relations, p.timeline, p.gaps) &&
            (NoMemory(p) <==> c == Chosen({}, {}, {}, {}))
  {
    ManifestEvidenceCloses(m);
    var p := BuildLexicalPacket(m, query, terms, manifestHash, matches, c);
    hide KeepIds, RelationsWithin, UniqueBy, UniqueIds, References, Closes, ChosenKnown, NamedEvidence, WithoutSpans,
         WithoutHypothesisSpans, EvidenceCloses, QuestionsClose, HypothesesClose, RelationsClose, TimelineCloses, GapsClose,
         ReferenceClosedPacket, EvidenceIds, SourceIds;
    var ids := NamedEvidence(p.questions, p.hypotheses, p.relations, p.timeline);
    PackedObjects(m, c);
    PackedContents(m, c, p);
    NamedEvidenceIsKnown(m, p.questions, p.hypotheses, p.relations, p.timeline);
    PackedResources(m, ids, p.evidence, p.sources);
    PackedReferencesClose(m, c, p.questions, p.hypotheses, p.relations, p.timeline, p.gaps);
    PacketParts(p, c, ids);
    if c == Chosen({}, {}, {}, {}) { NothingNamed(m, p, c); }
  }

  lemma ManifestEvidenceCloses(m: ManifestData)
    requires References(m)
    ensures EvidenceCloses(m.evidence, SourceIds(m.sources))
  {
  }

  lemma NothingNamed(m: ManifestData, p: LexicalPacket, c: Chosen)
    requires c.hypotheses == {} && p.questions == [] && p.hypotheses == [] && p.timeline == []
    requires p.relations == RelationsWithin(m, c.hypotheses)
    ensures NamedEvidence(p.questions, p.hypotheses, p.relations, p.timeline) == {}
  {
  }

  // ---------------------------------------------------- matches and memory

  predicate Listed(ranked: seq<Ranked>, ids: set<Id>) {
    forall r :: r in ranked ==> r.id in ids && r.score > 0 && r.terms != {}
  }

  // Scores name manifest records, with at least one matched term.
  lemma ScoresAreKnown(m: ManifestData, terms: string -> set<string>, query: set<string>)
    ensures var s := ScoresFor(m, terms, query);
            Listed(s.questions, Elems(Map(QuestionKey, m.questions))) && Listed(s.hypotheses, Elems(Map(HypothesisKey, m.hypotheses))) &&
            Listed(s.events, Elems(Map(TimelineEventKey, m.timeline))) && Listed(s.gaps, Elems(Map(GapKey, m.gaps)))
  {
    RankedAreListed(terms, query, m.questions, ScoredQuestion, QuestionKey);
    RankedAreListed(terms, query, m.hypotheses, ScoredHypothesis, HypothesisKey);
    RankedAreListed(terms, query, m.timeline, ScoredEvent, TimelineEventKey);
    RankedAreListed(terms, query, m.gaps, ScoredGap, GapKey);
  }

  lemma RankedAreListed<T(!new)>(terms: string -> set<string>, query: set<string>, items: seq<T>, scored: T -> Scored, key: T -> Id)
    requires forall x :: scored(x).id == key(x)
    ensures Listed(Sort(RankedLeq, Hits(terms, query, Map(scored, items))), Elems(Map(key, items)))
  {
    hide Sort, Hits;
    RankingIsExact(terms, Map(scored, items), query);
    forall r | r in Sort(RankedLeq, Hits(terms, query, Map(scored, items))) ensures r.id in Map(key, items) {
      var x :| x in Map(scored, items) && r == RankRecord(terms, query, x) && r.score > 0;
      var i :| 0 <= i < |items| && Map(scored, items)[i] == x;
      assert Map(key, items)[i] == scored(items[i]).id;
    }
  }

  lemma CappedBounds(ranked: seq<Ranked>, free: bool, linked: seq<Id>, limit: nat, known: set<Id>)
    requires Listed(ranked, known) && Elems(linked) <= known
    ensures var ids := Capped(ranked, free, linked, limit);
            ids <= known && |ids| <= limit && (linked == [] ==> ids <= Elems(Map(RankedId, ranked)))
  {
    var primary := Primary(ranked, free, Elems(linked));
    var all := StableUnique(primary + linked);
    ElemsConcat(primary, linked);
    FilterKeys((r: Ranked) => free || r.id in Elems(linked), RankedId, ranked);
    assert Elems(Take(all, limit)) <= Elems(all);
    ElemsCount(Take(all, limit));
    MapElems(RankedId, ranked);
  }

  lemma LinkedAreKnown(m: ManifestData, questions: set<Id>, hypotheses: set<Id>)
    ensures Elems(Map(HypothesisKey, LinkedHypotheses(m, questions))) <= Elems(Map(HypothesisKey, m.hypotheses))
    ensures Elems(Map(TimelineEventKey, LinkedEvents(m, questions, hypotheses))) <= Elems(Map(TimelineEventKey, m.timeline))
    ensures Elems(Map(GapKey, LinkedGaps(m, questions, hypotheses))) <= Elems(Map(GapKey, m.gaps))
  {
    hide Elems, LinkedHypothesis, LinkedEvent, LinkedGap, Filter, Map;
    FilterKeys(LinkedHypothesis(questions), HypothesisKey, m.hypotheses);
    FilterKeys(LinkedEvent(questions, hypotheses), TimelineEventKey, m.timeline);
    FilterKeys(LinkedGap(questions, hypotheses), GapKey, m.gaps);
  }

  lemma NothingLinked(m: ManifestData, hypotheses: set<Id>)
    ensures LinkedHypotheses(m, {}) == [] && Map(HypothesisKey, LinkedHypotheses(m, {})) == []
    ensures hypotheses == {} ==> LinkedEvents(m, {}, {}) == [] && Map(TimelineEventKey, LinkedEvents(m, {}, {})) == []
    ensures hypotheses == {} ==> LinkedGaps(m, {}, {}) == [] && Map(GapKey, LinkedGaps(m, {}, {})) == []
  {
    FilterNone(LinkedHypothesis({}), m.hypotheses);
    FilterNone(LinkedEvent({}, {}), m.timeline);
    FilterNone(LinkedGap({}, {}), m.gaps);
  }

  predicate SomeRanked(scores: Scores, c: Chosen) {
    c.questions * Elems(Map(RankedId, scores.questions)) != {} || c.hypotheses * Elems(Map(RankedId, scores.hypotheses)) != {} ||
    c.events * Elems(Map(RankedId, scores.events)) != {} || c.gaps * Elems(Map(RankedId, scores.gaps)) != {}
  }

  lemma TopQuestionsBounds(ranked: seq<Ranked>, limit: nat)
    ensures TopQuestions(ranked, limit) <= Elems(Map(RankedId, ranked))
  {
    var top := if |ranked| <= limit then ranked else ranked[..limit];
    MapElems(RankedId, top);
    MapElems(RankedId, ranked);
  }

  // A selection is known, and a non-empty one holds a scored object.
  lemma ChoiceIsKnown(m: ManifestData, limits: RouteLimits, scores: Scores)
    requires Listed(scores.questions, Elems(Map(QuestionKey, m.questions))) && Listed(scores.hypotheses, Elems(Map(HypothesisKey, m.hypotheses)))
    requires Listed(scores.events, Elems(Map(TimelineEventKey, m.timeline))) && Listed(scores.gaps, Elems(Map(GapKey, m.gaps)))
    ensures var c := Choose(m, limits, scores);
            ChosenKnown(m, c) && (c != Chosen({}, {}, {}, {}) ==> SomeRanked(scores, c))
  {
    hide Capped, LinkedHypotheses, LinkedEvents, LinkedGaps, TopQuestions;
    var c := Choose(m, limits, scores);
    TopQuestionsBounds(scores.questions, limits.maxQuestions);
    MapElems(RankedId, scores.questions);
    LinkedAreKnown(m, c.questions, c.hypotheses);
    NothingLinked(m, c.hypotheses);
    CappedBounds(scores.hypotheses, c.questions == {}, Map(HypothesisKey, LinkedHypotheses(m, c.questions)),
                 limits.maxHypotheses, Elems(Map(HypothesisKey, m.hypotheses)));
    var free := c.questions == {} && c.hypotheses == {};
    CappedBounds(scores.events, free, Map(TimelineEventKey, LinkedEvents(m, c.questions, c.hypotheses)),
                 limits.maxEvents, Elems(Map(TimelineEventKey, m.timeline)));
    CappedBounds(scores.gaps, free, Map(GapKey, LinkedGaps(m, c.questions, c.hypotheses)),
                 limits.maxGaps, Elems(Map(GapKey, m.gaps)));
    hide Elems;
    Subset(c.questions, Elems(Map(RankedId, scores.questions)));
    if c.questions == {} { Subset(c.hypotheses, Elems(Map(RankedId, scores.hypotheses))); }
    if free {
      Subset(c.events, Elems(Map(RankedId, scores.events)));
      Subset(c.gaps, Elems(Map(RankedId, scores.gaps)));
    }
  }

  lemma Subset(a: set<Id>, b: set<Id>)
    requires a <= b
    ensures a * b == a
  {
  }

  lemma ClosedIsKnown(m: ManifestData, c: Chosen)
    requires References(m)
    requires ChosenKnown(m, c)
    ensures ChosenKnown(m, Close(m, c))
  {
    MapElems(QuestionKey, m.questions);
    MapElems(HypothesisKey, m.hypotheses);
    hide Elems, Map;
    assert QuestionIds(m.questions) == Elems(Map(QuestionKey, m.questions));
    assert HypothesisIds(m.hypotheses) == Elems(Map(HypothesisKey, m.hypotheses));
    NamedAreKnown(m, c, ClosedHypotheses(m, c.hypotheses, c.events, c.gaps));
  }

  lemma NamedAreKnown(m: ManifestData, c: Chosen, hypotheses: set<Id>)
    requires References(m)
    ensures HypothesisQuestions(m.hypotheses, hypotheses) <= QuestionIds(m.questions)
    ensures EventQuestions(m.timeline, c.events) <= QuestionIds(m.questions) && GapQuestions(m.gaps, c.gaps) <= QuestionIds(m.questions)
    ensures EventHypotheses(m.timeline, c.events) <= HypothesisIds(m.hypotheses)
    ensures GapHypotheses(m.gaps, c.gaps) <= HypothesisIds(m.hypotheses)
  {
  }

  lemma MatchesShow(kind: Kind, ranked: seq<Ranked>, ids: set<Id>)
    ensures MatchesOf(kind, ranked, ids) != [] <==> ids * Elems(Map(RankedId, ranked)) != {}
    ensures forall x :: x in MatchesOf(kind, ranked, ids) ==>
              x.kind == kind && exists r :: r in ranked && r.id == x.id && r.score == x.score && r.terms == x.terms
  {
    var kept := Filter((r: Ranked) => r.id in ids, ranked);
    MapElems(RankedId, ranked);
    if kept != [] { assert kept[0] in kept; assert kept[0].id in ids * Elems(Map(RankedId, ranked)); }
    if id :| id in ids * Elems(Map(RankedId, ranked)) {
      var r :| r in ranked && RankedId(r) == id;
      assert r in kept;
    }
    forall x | x in MatchesOf(kind, ranked, ids)
      ensures x.kind == kind && exists r :: r in ranked && r.id == x.id && r.score == x.score && r.terms == x.terms
    {
      var i :| 0 <= i < |kept| && MatchesOf(kind, ranked, ids)[i] == x;
      assert kept[i] in kept && kept[i] in ranked;
    }
  }

  lemma MatchLeqIsTotalPreorder()
    ensures TotalPreorder(MatchLeq)
  {
    hide StrLeq, KindName;
    StrLeqIsTotalPreorder();
    forall a: string ensures StrLeq(a, a) { StrLeqTotal(a, a); }
    forall a, b ensures MatchLeq(a, b) || MatchLeq(b, a) {}
    forall a, b, c | MatchLeq(a, b) && MatchLeq(b, c) ensures MatchLeq(a, c) {
      if a.score == b.score == c.score {
        StrLeqTransitive(KindName(a.kind), KindName(b.kind), KindName(c.kind));
        if KindName(a.kind) == KindName(c.kind) { StrLeqAntisymmetric(KindName(a.kind), KindName(b.kind)); }
      }
    }
  }

  lemma SortedMatches(matches: seq<RouteMatch>)
    ensures |Sort(MatchLeq, matches)| == |matches| && Elems(Sort(MatchLeq, matches)) == Elems(matches)
    ensures Sorted(MatchLeq, Sort(MatchLeq, matches))
  {
    MatchLeqIsTotalPreorder();
    SortCorrect(MatchLeq, matches);
    SameElements(matches, Sort(MatchLeq, matches));
  }

  predicate ProperMatches(matches: seq<RouteMatch>) {
    forall x :: x in matches ==> x.kind != RelationKind && x.score >= 1 && x.terms != {}
  }

  lemma MatchesProper(kind: Kind, ranked: seq<Ranked>, ids: set<Id>, known: set<Id>)
    requires Listed(ranked, known) && kind != RelationKind
    ensures ProperMatches(MatchesOf(kind, ranked, ids))
    ensures MatchesOf(kind, ranked, ids) != [] <==> ids * Elems(Map(RankedId, ranked)) != {}
  {
    hide MatchesOf, Map;
    MatchesShow(kind, ranked, ids);
  }

  lemma ProperConcat(a: seq<RouteMatch>, b: seq<RouteMatch>)
    requires ProperMatches(a) && ProperMatches(b)
    ensures ProperMatches(a + b) && (a + b == [] <==> a == [] && b == [])
  {
  }

  lemma MatchesAreProper(m: ManifestData, scores: Scores, c: Chosen)
    requires Listed(scores.questions, Elems(Map(QuestionKey, m.questions))) && Listed(scores.hypotheses, Elems(Map(HypothesisKey, m.hypotheses)))
    requires Listed(scores.events, Elems(Map(TimelineEventKey, m.timeline))) && Listed(scores.gaps, Elems(Map(GapKey, m.gaps)))
    ensures var matches := Sort(MatchLeq, AllMatches(scores, c));
            ProperMatches(matches) && (matches != [] <==> SomeRanked(scores, c))
  {
    hide MatchesOf, Map, Listed, Elems;
    var q, h := MatchesOf(QuestionKind, scores.questions, c.questions), MatchesOf(HypothesisKind, scores.hypotheses, c.hypotheses);
    var t, g := MatchesOf(TimelineKind, scores.events, c.events), MatchesOf(GapKind, scores.gaps, c.gaps);
    MatchesProper(QuestionKind, scores.questions, c.questions, Elems(Map(QuestionKey, m.questions)));
    MatchesProper(HypothesisKind, scores.hypotheses, c.hypotheses, Elems(Map(HypothesisKey, m.hypotheses)));
    MatchesProper(TimelineKind, scores.events, c.events, Elems(Map(TimelineEventKey, m.timeline)));
    MatchesProper(GapKind, scores.gaps, c.gaps, Elems(Map(GapKey, m.gaps)));
    ProperConcat(q, h);
    ProperConcat(q + h, t);
    ProperConcat(q + h + t, g);
    SortedMatches(AllMatches(scores, c));
    SortKeepsProper(AllMatches(scores, c));
  }

  lemma SortKeepsProper(matches: seq<RouteMatch>)
    requires ProperMatches(matches)
    ensures ProperMatches(Sort(MatchLeq, matches))
  {
    SortedMatches(matches);
    forall x | x in Sort(MatchLeq, matches) ensures x in matches { assert x in Elems(matches); }
  }

  // Every packet the lexical router builds is reference-closed and passes the
  // schema 1.0 rules; it has no matches exactly when it carries no memory.
  lemma RouteIsAccepted(m: Manifest, limits: RouteLimits, query: string, terms: string -> set<string>, manifestHash: string)
    ensures var p := RouteFor(m, limits, query, terms, manifestHash);
            AcceptedLexical(p) && (p.matches == [] <==> NoMemory(p))
  {
    var scores := ScoresFor(m, terms, terms(query));
    assert UniqueIds(m) && References(m);
    hide AcceptedLexical, NoMemory, Choose, BuildLexicalPacket, Listed, ChosenKnown, SomeRanked, AllMatches, Close, UniqueIds, References,
         Elems, Map, ScoresFor;
    EmptyIsAccepted(m, query, terms(query), manifestHash);
    ScoresAreKnown(m, terms, terms(query));
    ChoiceIsKnown(m, limits, scores);
    RoutedIsAccepted(m, query, terms(query), manifestHash, scores, Choose(m, limits, scores));
  }

  lemma EmptyIsAccepted(m: ManifestData, query: string, terms: set<string>, manifestHash: string)
    requires UniqueIds(m) && References(m)
    ensures var p := BuildLexicalPacket(m, query, terms, manifestHash, [], Chosen({}, {}, {}, {}));
            AcceptedLexical(p) && p.matches == [] && NoMemory(p)
  {
    hide BuildLexicalPacket, ReferenceClosedPacket, ChosenKnown, Closes, NoMemory, UniqueIds, References;
    NothingChosen(m);
    LexicalPacketCloses(m, query, terms, manifestHash, [], Chosen({}, {}, {}, {}));
    BuiltFields(m, query, terms, manifestHash, [], Chosen({}, {}, {}, {}));
  }

  lemma RoutedIsAccepted(
    m: ManifestData, query: string, terms: set<string>, manifestHash: string, scores: Scores, chosen: Chosen)
    requires UniqueIds(m) && References(m) && ChosenKnown(m, chosen)
    requires chosen != Chosen({}, {}, {}, {}) ==> SomeRanked(scores, chosen)
    requires Listed(scores.questions, Elems(Map(QuestionKey, m.questions))) && Listed(scores.hypotheses, Elems(Map(HypothesisKey, m.hypotheses)))
    requires Listed(scores.events, Elems(Map(TimelineEventKey, m.timeline))) && Listed(scores.gaps, Elems(Map(GapKey, m.gaps)))
    ensures var c := Close(m, chosen);
            var p := BuildLexicalPacket(m, query, terms, manifestHash, Sort(MatchLeq, AllMatches(scores, c)), c);
            AcceptedLexical(p) && (p.matches == [] <==> NoMemory(p))
  {
    hide BuildLexicalPacket, ReferenceClosedPacket, Listed, ChosenKnown, SomeRanked, Closes, AllMatches, NoMemory, UniqueIds,
         References, Elems, Map, Sort;
    var c := Close(m, chosen);
    ClosedIsKnown(m, chosen);
    ClosureIsLeast(m, chosen.questions, chosen.hypotheses, chosen.events, chosen.gaps, {}, {});
    var matches := Sort(MatchLeq, AllMatches(scores, c));
    LexicalPacketCloses(m, query, terms, manifestHash, matches, c);
    BuiltFields(m, query, terms, manifestHash, matches, c);
    MatchesAreProper(m, scores, c);
    ClosingKeepsEmptiness(m, scores, chosen);
  }

  lemma BuiltFields(
    m: ManifestData, query: string, terms: set<string>, manifestHash: string, matches: seq<RouteMatch>, c: Chosen)
    ensures var p := BuildLexicalPacket(m, query, terms, manifestHash, matches, c);
            p.matches == matches && p.status == (if matches == [] then StatusNoMatch else StatusRouted)
  {
  }

  lemma NothingChosen(m: ManifestData)
    ensures ChosenKnown(m, Chosen({}, {}, {}, {})) && Closes(m, {}, {}, {}, {})
  {
  }

  lemma ClosingKeepsEmptiness(m: ManifestData, scores: Scores, chosen: Chosen)
    requires chosen != Chosen({}, {}, {}, {}) ==> SomeRanked(scores, chosen)
    ensures var c := Close(m, chosen); SomeRanked(scores, c) <==> c != Chosen({}, {}, {}, {})
  {
    var c := Close(m, chosen);
    if chosen == Chosen({}, {}, {}, {}) {
      assert EventQuestions(m.timeline, {}) == {} && EventHypotheses(m.timeline, {}) == {};
      assert GapQuestions(m.gaps, {}) == {} && GapHypotheses(m.gaps, {}) == {} && HypothesisQuestions(m.hypotheses, {}) == {};
      assert c == chosen;
    } else {
      assert chosen.questions <= c.questions && chosen.hypotheses <= c.hypotheses;
    }
  }
}
