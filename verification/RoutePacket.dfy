// The receipt-bound compact packet, the two validators every packet passes on
// construction, and the proof that a bounded run always builds one they accept.

module RoutePacket {
  import opened Common
  import opened AtlasModels
  import opened SemanticRoute
  import opened RouteGraph
  import opened RouteRun
  import opened RouteInvariant
  import opened RouteTheorems

  datatype RouteStatus = StatusRouted | StatusNoMatch | StatusBudgetExceeded

  datatype Packet = Packet(
    status: RouteStatus, query: string, queryTerms: set<string>,
    atlasId: Id, caseId: Id, manifestHash: string,
    sources: seq<Source>, evidence: seq<Evidence>, questions: seq<Question>, hypotheses: seq<Hypothesis>,
    relations: seq<Relation>, timeline: seq<TimelineEvent>, gaps: seq<Gap>,
    budget: RouteBudget, trace: seq<TraceEntry>, omissions: seq<Omission>)

  const MAX_QUERY_TERMS := 128
  const MAX_TRACE := 700
  const MAX_OMISSIONS := 11_000

  // ------------------------------------------------------------- validators

  // Field bounds of the packet model.
  predicate WithinPacketLimits(p: Packet) {
    0 < |p.query| <= MAX_QUERY_LENGTH && |p.queryTerms| <= MAX_QUERY_TERMS &&
    |p.sources| <= 200 && |p.evidence| <= 1_000 && |p.questions| <= 100 && |p.hypotheses| <= 100 &&
    |p.relations| <= 200 && |p.timeline| <= 200 && |p.gaps| <= 100 &&
    |p.trace| <= MAX_TRACE && |p.omissions| <= MAX_OMISSIONS
  }

  // The validator shared with schema 1.0: no trace spans, unique identifiers,
  // every reference inside the packet.
  predicate ReferenceClosedPacket(
    sources: seq<Source>, evidence: seq<Evidence>, questions: seq<Question>, hypotheses: seq<Hypothesis>,
    relations: seq<Relation>, timeline: seq<TimelineEvent>, gaps: seq<Gap>)
  {
    (forall q :: q in questions ==> q.traceSpans == []) &&
    (forall h :: h in hypotheses ==> h.traceSpans == []) &&
    UniqueBy(sources, SourceKey) && UniqueBy(evidence, EvidenceKey) &&
    UniqueBy(questions, QuestionKey) && UniqueBy(hypotheses, HypothesisKey) &&
    ClosedReferences(sources, evidence, questions, hypotheses, relations, timeline, gaps)
  }

  // One trace entry: a seed is a question with the score of its own channel.
  predicate ValidEntry(e: TraceEntry) {
    e.origin.FromSeed? ==>
      e.key.kind == QuestionKind && 1 <= e.origin.rank <= MAX_CANDIDATES &&
      (if e.origin.channel == SemanticChannel
       then e.origin.semanticScore.Some? && e.origin.lexicalScore.None?
       else e.origin.semanticScore.None? && e.origin.lexicalScore.Some? &&
            1 <= e.origin.lexicalScore.value <= MAX_LEXICAL_SCORE)
  }

  function PacketKeys(p: Packet): set<Key> {
    Elems(KeysOf(QuestionKind, Map(QuestionKey, p.questions))) +
    Elems(KeysOf(HypothesisKind, Map(HypothesisKey, p.hypotheses))) +
    Elems(KeysOf(RelationKind, Map(RelationKey, p.relations))) +
    Elems(KeysOf(TimelineKind, Map(TimelineEventKey, p.timeline))) +
    Elems(KeysOf(GapKind, Map(GapKey, p.gaps)))
  }

  predicate ValidTrace(p: Packet) {
    (forall e :: e in p.trace ==> ValidEntry(e)) &&
    |Held(p.trace)| == |p.trace| && |Refused(p.omissions)| == |p.omissions| &&
    Held(p.trace) !! Refused(p.omissions) &&
    Held(p.trace) == PacketKeys(p) &&
    ParentsPrecede(p.trace)
  }

  predicate WithinRouteBudget(p: Packet) {
    |p.questions| <= p.budget.maxQuestions && |p.hypotheses| <= p.budget.maxLinkedHypotheses &&
    |p.relations| <= p.budget.maxRelations && |p.timeline| <= p.budget.maxTimelineEvents &&
    |p.gaps| <= p.budget.maxGaps && |p.evidence| <= p.budget.maxEvidence && |p.sources| <= p.budget.maxSources
  }

  predicate EmptyPacket(p: Packet) {
    p.sources == [] && p.evidence == [] && p.questions == [] && p.hypotheses == [] &&
    p.relations == [] && p.timeline == [] && p.gaps == []
  }

  predicate ConsistentStatus(p: Packet) {
    match p.status
    case StatusRouted => !EmptyPacket(p) && exists e :: e in p.trace && e.origin.FromSeed?
    case StatusNoMatch => EmptyPacket(p) && p.trace == [] && p.omissions == []
    case StatusBudgetExceeded => EmptyPacket(p) && p.trace == [] && p.omissions != []
  }

  predicate Accepted(p: Packet) {
    WithinPacketLimits(p) &&
    ReferenceClosedPacket(p.sources, p.evidence, p.questions, p.hypotheses, p.relations, p.timeline, p.gaps) &&
    ValidTrace(p) && WithinRouteBudget(p) && ConsistentStatus(p)
  }

  // ---------------------------------------------------------------- building

  function WithoutSpans(q: Question): Question { q.(traceSpans := []) }

  function WithoutHypothesisSpans(h: Hypothesis): Hypothesis { h.(traceSpans := []) }

  function BuildPacket(
    m: ManifestData, b: RouteBudget, query: string, terms: set<string>, manifestHash: string,
    status: RouteStatus, s: Selection): Packet
  {
    var evidenceIds := EvidenceOf(m, Held(s.trace));
    var sourceIds := SourcesOf(m, evidenceIds);
    Packet(
      status, query, terms, m.atlasId, m.caseId, manifestHash,
      KeepIds(SourceKey, m.sources, sourceIds),
      KeepIds(EvidenceKey, m.evidence, evidenceIds),
      Map(WithoutSpans, Pick(QuestionKey, m.questions, Order(s.trace, QuestionKind))),
      Map(WithoutHypothesisSpans, Pick(HypothesisKey, m.hypotheses, Order(s.trace, HypothesisKind))),
      Pick(RelationKey, m.relations, Order(s.trace, RelationKind)),
      Pick(TimelineEventKey, m.timeline, Order(s.trace, TimelineKind)),
      Pick(GapKey, m.gaps, Order(s.trace, GapKind)),
      b, s.trace, s.omissions)
  }

  // ------------------------------------------------------------- the counts

  // The order lists repeat nothing.
  lemma {:induction false} OrderDistinct(trace: seq<TraceEntry>, kind: Kind)
    requires |Held(trace)| == |trace|
    ensures Distinct(Order(trace, kind))
  {
    if trace == [] {
      assert Elems(Order(trace, kind)) == {};
    } else {
      var front, e := trace[..|trace| - 1], trace[|trace| - 1];
      HeldFront(trace);
      OrderDistinct(front, kind);
      OrderElems(front, kind);
      DistinctSnoc(Order(front, kind), e.key.id);
      assert e.key == Key(e.key.kind, e.key.id);
      assert Order(front, kind) + [] == Order(front, kind);
      assert e.key.id in Order(front, kind) <==> e.key.id in Elems(Order(front, kind));
    }
  }

  lemma {:induction false} HeldCount(trace: seq<TraceEntry>)
    ensures |Held(trace)| <= |trace|
  {
    if trace != [] {
      HeldCount(trace[..|trace| - 1]);
      assert trace == trace[..|trace| - 1] + [trace[|trace| - 1]];
      assert Held(trace) == Held(trace[..|trace| - 1]) + {trace[|trace| - 1].key};
    }
  }

  lemma HeldFront(trace: seq<TraceEntry>)
    requires trace != [] && |Held(trace)| == |trace|
    ensures var front, e := trace[..|trace| - 1], trace[|trace| - 1];
            |Held(front)| == |front| && e.key !in Held(front)
  {
    var front, e := trace[..|trace| - 1], trace[|trace| - 1];
    HeldCount(front);
    assert trace == front + [e];
    assert Held(trace) == Held(front) + {e.key};
    assert e.key in Held(front) ==> Held(trace) == Held(front);
  }

  lemma OfKindRemove(keys: set<Key>, k: Key, kind: Kind)
    requires k in keys
    ensures |OfKind(keys, kind)| == |OfKind(keys - {k}, kind)| + (if k.kind == kind then 1 else 0)
  {
    var rest := OfKind(keys - {k}, kind);
    if k.kind == kind {
      assert k == Key(kind, k.id);
      assert OfKind(keys, kind) == rest + {k.id};
    } else {
      assert OfKind(keys, kind) == rest;
    }
  }

  // Objects are counted kind by kind.
  lemma {:induction false} CountByKind(keys: set<Key>)
    ensures |keys| == |OfKind(keys, QuestionKind)| + |OfKind(keys, HypothesisKind)| + |OfKind(keys, RelationKind)|
                    + |OfKind(keys, TimelineKind)| + |OfKind(keys, GapKind)|
  {
    if keys != {} {
      var k :| k in keys;
      OfKindRemove(keys, k, QuestionKind);
      OfKindRemove(keys, k, HypothesisKind);
      OfKindRemove(keys, k, RelationKind);
      OfKindRemove(keys, k, TimelineKind);
      OfKindRemove(keys, k, GapKind);
      CountByKind(keys - {k});
    }
  }

  lemma KnownCount<T>(keys: set<Key>, kind: Kind, key: T -> Id, items: seq<T>)
    requires forall k :: k in keys && k.kind == kind ==> FindBy(key, items, k.id).Some?
    ensures |OfKind(keys, kind)| <= |items|
  {
    MapElems(key, items);
    ElemsCount(Map(key, items));
    forall id | id in OfKind(keys, kind) ensures id in Elems(Map(key, items)) {
      assert Key(kind, id) in keys;
      var x := FindBy(key, items, id).value;
      assert x in items && key(x) == id;
    }
    SubsetCount(OfKind(keys, kind), Elems(Map(key, items)));
  }

  // The caps on trace and omissions follow from the budgets and from the
  // manifest's own collection limits.
  lemma TraceCap(m: ManifestData, b: RouteBudget, held: set<Key>)
    requires CapacityReason(m, b, held) == None
    ensures |held| <= MAX_TRACE
  {
    CountByKind(held);
  }

  lemma OmissionCap(m: ManifestData, refused: set<Key>)
    requires WithinCollectionLimits(m) && forall k :: k in refused ==> Known(m, k)
    ensures |refused| <= MAX_OMISSIONS
  {
    CountByKind(refused);
    KnownCount(refused, QuestionKind, QuestionKey, m.questions);
    KnownCount(refused, HypothesisKind, HypothesisKey, m.hypotheses);
    KnownCount(refused, RelationKind, RelationKey, m.relations);
    KnownCount(refused, TimelineKind, TimelineEventKey, m.timeline);
    KnownCount(refused, GapKind, GapKey, m.gaps);
  }

  // ------------------------------------------------- the packet's contents

  // What is held names only what is held.
  lemma HeldRefs(m: ManifestData, held: set<Key>, k: Key)
    requires Closed(m, held) && k in held
    ensures Elems(QuestionRefs(m, k)) <= OfKind(held, QuestionKind)
    ensures Elems(HypothesisRefs(m, k)) <= OfKind(held, HypothesisKind)
    ensures OwnEvidence(m, k) <= EvidenceOf(m, held)
  {
    NeedsElems(m, k);
    var all := QuestionRefs(m, k) + QuestionsOf(m, HypothesisRefs(m, k));
    forall q | q in QuestionRefs(m, k) ensures Key(QuestionKind, q) in held {
      assert q in Elems(all);
      assert q in Elems(StableUnique(all));
      assert q in RequiredQuestions(m, k);
      assert Key(QuestionKind, q) in Elems(Needs(m, k));
    }
    forall h | h in HypothesisRefs(m, k) ensures Key(HypothesisKind, h) in held {
      if k.kind != RelationKind { assert Key(HypothesisKind, h) in Elems(Needs(m, k)); }
      else { assert h in OfKind(held, HypothesisKind); }
    }
  }

  // Each object list is its order list, record by record.
  lemma PickedOrder<T>(m: ManifestData, s: Selection, kind: Kind, key: T -> Id, items: seq<T>)
    requires |Held(s.trace)| == |s.trace|
    requires forall k :: k in Held(s.trace) && k.kind == kind ==> FindBy(key, items, k.id).Some?
    ensures
      var picked := Pick(key, items, Order(s.trace, kind));
      Map(key, picked) == Order(s.trace, kind) && UniqueBy(picked, key) &&
      |picked| == |OfKind(Held(s.trace), kind)| &&
      (forall x :: x in picked ==> Key(kind, key(x)) in Held(s.trace) && FindBy(key, items, key(x)) == Some(x))
  {
    OrderElems(s.trace, kind);
    OrderDistinct(s.trace, kind);
    forall id | id in Order(s.trace, kind) ensures Key(kind, id) in Held(s.trace) {
      assert id in Elems(Order(s.trace, kind));
    }
    PickFinds(key, items, Order(s.trace, kind));
  }

  lemma ResourcesExist(m: ManifestData, held: set<Key>)
    requires References(m)
    ensures EvidenceOf(m, held) <= EvidenceIds(m.evidence)
    ensures SourcesOf(m, EvidenceOf(m, held)) <= SourceIds(m.sources)
  {
    forall k ensures OwnEvidence(m, k) <= EvidenceIds(m.evidence) { OwnEvidenceExists(m, k); }
  }

  lemma OwnEvidenceExists(m: ManifestData, k: Key)
    requires References(m)
    ensures OwnEvidence(m, k) <= EvidenceIds(m.evidence)
  {
  }

  lemma SpansCleared(q: seq<Question>, h: seq<Hypothesis>)
    ensures Map(QuestionKey, Map(WithoutSpans, q)) == Map(QuestionKey, q)
    ensures Map(HypothesisKey, Map(WithoutHypothesisSpans, h)) == Map(HypothesisKey, h)
  {
  }

  // Held keys per kind, seen from the packet's own lists.
  lemma PacketLists(
    m: ManifestData, b: RouteBudget, query: string, terms: set<string>, manifestHash: string,
    status: RouteStatus, s: Selection)
    requires |Held(s.trace)| == |s.trace| && forall k :: k in Held(s.trace) ==> Known(m, k)
    ensures
      var p := BuildPacket(m, b, query, terms, manifestHash, status, s);
      Map(QuestionKey, p.questions) == Order(s.trace, QuestionKind) &&
      Map(HypothesisKey, p.hypotheses) == Order(s.trace, HypothesisKind) &&
      Map(RelationKey, p.relations) == Order(s.trace, RelationKind) &&
      Map(TimelineEventKey, p.timeline) == Order(s.trace, TimelineKind) &&
      Map(GapKey, p.gaps) == Order(s.trace, GapKind)
    ensures
      var p := BuildPacket(m, b, query, terms, manifestHash, status, s);
      |p.questions| == |OfKind(Held(s.trace), QuestionKind)| && |p.hypotheses| == |OfKind(Held(s.trace), HypothesisKind)| &&
      |p.relations| == |OfKind(Held(s.trace), RelationKind)| && |p.timeline| == |OfKind(Held(s.trace), TimelineKind)| &&
      |p.gaps| == |OfKind(Held(s.trace), GapKind)|
  {
    PickedOrder(m, s, QuestionKind, QuestionKey, m.questions);
    PickedOrder(m, s, HypothesisKind, HypothesisKey, m.hypotheses);
    PickedOrder(m, s, RelationKind, RelationKey, m.relations);
    PickedOrder(m, s, TimelineKind, TimelineEventKey, m.timeline);
    PickedOrder(m, s, GapKind, GapKey, m.gaps);
    SpansCleared(Pick(QuestionKey, m.questions, Order(s.trace, QuestionKind)),
                 Pick(HypothesisKey, m.hypotheses, Order(s.trace, HypothesisKind)));
  }

  lemma OrderKeys(trace: seq<TraceEntry>, kind: Kind)
    ensures Elems(KeysOf(kind, Order(trace, kind))) == set k | k in Held(trace) && k.kind == kind
  {
    KeysOfElems(kind, Order(trace, kind));
    OrderElems(trace, kind);
    forall k: Key | k.kind == kind ensures k in KeysOf(kind, Order(trace, kind)) <==> k in Held(trace) {
      assert k.id in Order(trace, kind) <==> k.id in Elems(Order(trace, kind));
      assert k == Key(kind, k.id);
    }
  }

  lemma KindsPartition(keys: set<Key>)
    ensures (set k | k in keys && k.kind == QuestionKind) + (set k | k in keys && k.kind == HypothesisKind) +
            (set k | k in keys && k.kind == RelationKind) + (set k | k in keys && k.kind == TimelineKind) +
            (set k | k in keys && k.kind == GapKind) == keys
  {
    forall k | k in keys ensures k.kind == QuestionKind || k.kind == HypothesisKind || k.kind == RelationKind ||
                                 k.kind == TimelineKind || k.kind == GapKind
    {
      match k.kind
      case QuestionKind => case HypothesisKind => case RelationKind => case TimelineKind => case GapKind =>
    }
  }

  lemma PacketKeysAreHeld(
    m: ManifestData, b: RouteBudget, query: string, terms: set<string>, manifestHash: string,
    status: RouteStatus, s: Selection)
    requires |Held(s.trace)| == |s.trace| && forall k :: k in Held(s.trace) ==> Known(m, k)
    ensures PacketKeys(BuildPacket(m, b, query, terms, manifestHash, status, s)) == Held(s.trace)
  {
    PacketLists(m, b, query, terms, manifestHash, status, s);
    OrderKeys(s.trace, QuestionKind);
    OrderKeys(s.trace, HypothesisKind);
    OrderKeys(s.trace, RelationKind);
    OrderKeys(s.trace, TimelineKind);
    OrderKeys(s.trace, GapKind);
    KindsPartition(Held(s.trace));
  }

  // The packet's references all land inside it.
  lemma HeldQuestionsClose(m: ManifestData, s: Selection)
    requires |Held(s.trace)| == |s.trace| && Closed(m, Held(s.trace)) && forall k :: k in Held(s.trace) ==> Known(m, k)
    ensures QuestionsClose(Map(WithoutSpans, Pick(QuestionKey, m.questions, Order(s.trace, QuestionKind))),
                           EvidenceOf(m, Held(s.trace)))
  {
    PickedOrder(m, s, QuestionKind, QuestionKey, m.questions);
    forall x | x in Pick(QuestionKey, m.questions, Order(s.trace, QuestionKind))
      ensures Elems(x.evidenceIds) <= EvidenceOf(m, Held(s.trace))
    {
      HeldRefs(m, Held(s.trace), Key(QuestionKind, x.questionId));
    }
  }

  lemma HeldHypothesesClose(m: ManifestData, s: Selection)
    requires |Held(s.trace)| == |s.trace| && Closed(m, Held(s.trace)) && forall k :: k in Held(s.trace) ==> Known(m, k)
    ensures HypothesesClose(Map(WithoutHypothesisSpans, Pick(HypothesisKey, m.hypotheses, Order(s.trace, HypothesisKind))),
                            EvidenceOf(m, Held(s.trace)), OfKind(Held(s.trace), QuestionKind))
  {
    PickedOrder(m, s, HypothesisKind, HypothesisKey, m.hypotheses);
    forall x | x in Pick(HypothesisKey, m.hypotheses, Order(s.trace, HypothesisKind))
      ensures Elems(x.evidenceIds) + Elems(x.counterevidenceIds) <= EvidenceOf(m, Held(s.trace)) &&
              Elems(x.questionIds) <= OfKind(Held(s.trace), QuestionKind)
    {
      HeldRefs(m, Held(s.trace), Key(HypothesisKind, x.hypothesisId));
    }
  }

  lemma HeldRelationsClose(m: ManifestData, s: Selection)
    requires |Held(s.trace)| == |s.trace| && Closed(m, Held(s.trace)) && forall k :: k in Held(s.trace) ==> Known(m, k)
    ensures RelationsClose(Pick(RelationKey, m.relations, Order(s.trace, RelationKind)),
                           EvidenceOf(m, Held(s.trace)), OfKind(Held(s.trace), HypothesisKind))
  {
    PickedOrder(m, s, RelationKind, RelationKey, m.relations);
    forall x | x in Pick(RelationKey, m.relations, Order(s.trace, RelationKind))
      ensures Elems(x.evidenceIds) <= EvidenceOf(m, Held(s.trace)) &&
              {x.sourceHypothesisId, x.targetHypothesisId} <= OfKind(Held(s.trace), HypothesisKind)
    {
      var refs := HypothesisRefs(m, Key(RelationKind, x.relationId));
      HeldRefs(m, Held(s.trace), Key(RelationKind, x.relationId));
      assert refs == [x.sourceHypothesisId, x.targetHypothesisId];
      assert refs[0] in Elems(refs) && refs[1] in Elems(refs);
    }
  }

  lemma HeldTimelineCloses(m: ManifestData, s: Selection)
    requires |Held(s.trace)| == |s.trace| && Closed(m, Held(s.trace)) && forall k :: k in Held(s.trace) ==> Known(m, k)
    ensures TimelineCloses(Pick(TimelineEventKey, m.timeline, Order(s.trace, TimelineKind)), EvidenceOf(m, Held(s.trace)),
                           OfKind(Held(s.trace), QuestionKind), OfKind(Held(s.trace), HypothesisKind))
  {
    PickedOrder(m, s, TimelineKind, TimelineEventKey, m.timeline);
    forall x | x in Pick(TimelineEventKey, m.timeline, Order(s.trace, TimelineKind))
      ensures Elems(x.evidenceIds) <= EvidenceOf(m, Held(s.trace)) &&
              Elems(x.questionIds) <= OfKind(Held(s.trace), QuestionKind) &&
              Elems(x.hypothesisIds) <= OfKind(Held(s.trace), HypothesisKind)
    {
      HeldRefs(m, Held(s.trace), Key(TimelineKind, x.eventId));
    }
  }

  lemma HeldGapsClose(m: ManifestData, s: Selection)
    requires |Held(s.trace)| == |s.trace| && Closed(m, Held(s.trace)) && forall k :: k in Held(s.trace) ==> Known(m, k)
    ensures GapsClose(Pick(GapKey, m.gaps, Order(s.trace, GapKind)),
                      OfKind(Held(s.trace), QuestionKind), OfKind(Held(s.trace), HypothesisKind))
  {
    PickedOrder(m, s, GapKind, GapKey, m.gaps);
    forall x | x in Pick(GapKey, m.gaps, Order(s.trace, GapKind))
      ensures Elems(x.relatedQuestionIds) <= OfKind(Held(s.trace), QuestionKind) &&
              Elems(x.relatedHypothesisIds) <= OfKind(Held(s.trace), HypothesisKind)
    {
      HeldRefs(m, Held(s.trace), Key(GapKind, x.gapId));
    }
  }

  lemma ListIds(m: ManifestData, s: Selection, questions: seq<Question>, hypotheses: seq<Hypothesis>)
    requires |Held(s.trace)| == |s.trace| && forall k :: k in Held(s.trace) ==> Known(m, k)
    requires questions == Map(WithoutSpans, Pick(QuestionKey, m.questions, Order(s.trace, QuestionKind)))
    requires hypotheses == Map(WithoutHypothesisSpans, Pick(HypothesisKey, m.hypotheses, Order(s.trace, HypothesisKind)))
    ensures QuestionIds(questions) == OfKind(Held(s.trace), QuestionKind)
    ensures HypothesisIds(hypotheses) == OfKind(Held(s.trace), HypothesisKind)
  {
    PickedOrder(m, s, QuestionKind, QuestionKey, m.questions);
    PickedOrder(m, s, HypothesisKind, HypothesisKey, m.hypotheses);
    SpansCleared(Pick(QuestionKey, m.questions, Order(s.trace, QuestionKind)),
                 Pick(HypothesisKey, m.hypotheses, Order(s.trace, HypothesisKind)));
    OrderElems(s.trace, QuestionKind);
    OrderElems(s.trace, HypothesisKind);
    MapElems(QuestionKey, questions);
    MapElems(HypothesisKey, hypotheses);
  }

  lemma PacketIsReferenceClosed(
    m: ManifestData, b: RouteBudget, query: string, terms: set<string>, manifestHash: string,
    status: RouteStatus, s: Selection)
    requires |Held(s.trace)| == |s.trace| && Closed(m, Held(s.trace)) && forall k :: k in Held(s.trace) ==> Known(m, k)
    requires References(m) && UniqueIds(m)
    ensures var p := BuildPacket(m, b, query, terms, manifestHash, status, s);
            ReferenceClosedPacket(p.sources, p.evidence, p.questions, p.hypotheses, p.relations, p.timeline, p.gaps) &&
            |p.evidence| == |EvidenceOf(m, Held(s.trace))| &&
            |p.sources| == |SourcesOf(m, EvidenceOf(m, Held(s.trace)))|
  {
    var p := BuildPacket(m, b, query, terms, manifestHash, status, s);
    ResourceLists(m, s, p.evidence, p.sources);
    HeldQuestionsClose(m, s);
    HeldHypothesesClose(m, s);
    HeldRelationsClose(m, s);
    HeldTimelineCloses(m, s);
    HeldGapsClose(m, s);
    ListIds(m, s, p.questions, p.hypotheses);
    PacketLists(m, b, query, terms, manifestHash, status, s);
    OrderDistinct(s.trace, QuestionKind);
    OrderDistinct(s.trace, HypothesisKind);
  }

  // Evidence kept by ID: its records, and the sources they name.
  lemma KeptEvidence(m: ManifestData, ids: set<Id>, evidence: seq<Evidence>)
    requires UniqueIds(m) && ids <= EvidenceIds(m.evidence) && evidence == KeepIds(EvidenceKey, m.evidence, ids)
    ensures EvidenceIds(evidence) == ids && UniqueBy(evidence, EvidenceKey) && |evidence| == |ids|
    ensures EvidenceCloses(evidence, SourcesOf(m, ids))
  {
    MapElems(EvidenceKey, m.evidence);
    KeptIds(EvidenceKey, m.evidence, ids);
    MapElems(EvidenceKey, evidence);
    forall e | e in evidence ensures e.sourceId in SourcesOf(m, ids) {
      FindByKey(EvidenceKey, m.evidence, e);
      assert e.evidenceId in ids;
    }
  }

  lemma KeptSources(m: ManifestData, ids: set<Id>, sources: seq<Source>)
    requires UniqueIds(m) && ids <= SourceIds(m.sources) && sources == KeepIds(SourceKey, m.sources, ids)
    ensures SourceIds(sources) == ids && UniqueBy(sources, SourceKey) && |sources| == |ids|
  {
    MapElems(SourceKey, m.sources);
    KeptIds(SourceKey, m.sources, ids);
    MapElems(SourceKey, sources);
  }

  lemma ResourceLists(m: ManifestData, s: Selection, evidence: seq<Evidence>, sources: seq<Source>)
    requires References(m) && UniqueIds(m)
    requires evidence == KeepIds(EvidenceKey, m.evidence, EvidenceOf(m, Held(s.trace)))
    requires sources == KeepIds(SourceKey, m.sources, SourcesOf(m, EvidenceOf(m, Held(s.trace))))
    ensures EvidenceIds(evidence) == EvidenceOf(m, Held(s.trace)) && UniqueBy(evidence, EvidenceKey)
    ensures SourceIds(sources) == SourcesOf(m, EvidenceOf(m, Held(s.trace))) && UniqueBy(sources, SourceKey)
    ensures |evidence| == |EvidenceOf(m, Held(s.trace))| && |sources| == |SourcesOf(m, EvidenceOf(m, Held(s.trace)))|
    ensures EvidenceCloses(evidence, SourceIds(sources))
  {
    hide References, UniqueIds, EvidenceOf, SourcesOf, KeepIds, Held, EvidenceIds, SourceIds;
    ResourcesExist(m, Held(s.trace));
    KeptEvidence(m, EvidenceOf(m, Held(s.trace)), evidence);
    KeptSources(m, SourcesOf(m, EvidenceOf(m, Held(s.trace))), sources);
  }

  // ------------------------------------------------------ acceptance

  // The three ways a routing pass ends.
  predicate StatusFits(status: RouteStatus, s: Selection) {
    match status
    case StatusRouted => SeedIds(s.trace) != {}
    case StatusNoMatch => s == NothingSelected
    case StatusBudgetExceeded => s.trace == [] && s.omissions != []
  }

  lemma StatusIsConsistent(p: Packet, s: Selection)
    requires p.trace == s.trace && p.omissions == s.omissions && StatusFits(p.status, s)
    requires PacketKeys(p) == Held(s.trace)
    requires s.trace == [] ==> EmptyPacket(p)
    ensures ConsistentStatus(p)
  {
    if p.status == StatusRouted {
      var e :| e in p.trace && e.origin.FromSeed?;
      assert e.key in PacketKeys(p);
    }
  }

  lemma FitsEachBudget(m: ManifestData, b: Limits, held: set<Key>)
    requires CapacityReason(m, b, held) == None
    ensures |OfKind(held, QuestionKind)| <= b.maxQuestions && |OfKind(held, HypothesisKind)| <= b.maxLinkedHypotheses
    ensures |OfKind(held, RelationKind)| <= b.maxRelations && |OfKind(held, TimelineKind)| <= b.maxTimelineEvents
    ensures |OfKind(held, GapKind)| <= b.maxGaps && |EvidenceOf(m, held)| <= b.maxEvidence
    ensures |SourcesOf(m, EvidenceOf(m, held))| <= b.maxSources
  {
  }

  lemma NothingHeldNothingPacked(
    m: ManifestData, b: RouteBudget, query: string, terms: set<string>, manifestHash: string,
    status: RouteStatus, s: Selection)
    requires s.trace == []
    ensures EmptyPacket(BuildPacket(m, b, query, terms, manifestHash, status, s))
  {
    assert Held(s.trace) == {};
    assert EvidenceOf(m, {}) == {} && SourcesOf(m, {}) == {};
    KeepNone(EvidenceKey, m.evidence, {});
    KeepNone(SourceKey, m.sources, {});
  }

  lemma PacketFits(
    m: ManifestData, b: RouteBudget, query: string, terms: set<string>, manifestHash: string,
    status: RouteStatus, s: Selection)
    requires |Held(s.trace)| == |s.trace| && forall k :: k in Held(s.trace) ==> Known(m, k)
    requires CapacityReason(m, b, Held(s.trace)) == None
    requires var p := BuildPacket(m, b, query, terms, manifestHash, status, s);
             |p.evidence| == |EvidenceOf(m, Held(s.trace))| && |p.sources| == |SourcesOf(m, EvidenceOf(m, Held(s.trace)))|
    ensures WithinRouteBudget(BuildPacket(m, b, query, terms, manifestHash, status, s))
  {
    FitsEachBudget(m, b, Held(s.trace));
    PacketLists(m, b, query, terms, manifestHash, status, s);
  }

  lemma PacketTraceValid(
    m: ManifestData, b: RouteBudget, query: string, terms: set<string>, manifestHash: string,
    status: RouteStatus, s: Selection)
    requires Inv(m, b, s) && forall e :: e in s.trace ==> ValidEntry(e)
    ensures ValidTrace(BuildPacket(m, b, query, terms, manifestHash, status, s))
  {
    PacketKeysAreHeld(m, b, query, terms, manifestHash, status, s);
  }

  lemma LimitsFollow(p: Packet)
    requires 0 < |p.query| <= MAX_QUERY_LENGTH && WithinRouteBudget(p)
    requires |p.trace| <= MAX_TRACE && |p.omissions| <= MAX_OMISSIONS
    ensures WithinPacketLimits(p) <==> |p.queryTerms| <= MAX_QUERY_TERMS
  {
  }

  // The packet built from any state that satisfies the invariant is accepted
  // exactly when the query has at most 128 distinct terms.
  lemma BuiltPacketAccepted(
    m: ManifestData, b: RouteBudget, query: string, terms: set<string>, manifestHash: string,
    status: RouteStatus, s: Selection)
    requires References(m) && UniqueIds(m) && WithinCollectionLimits(m) && Inv(m, b, s)
    requires 0 < |query| <= MAX_QUERY_LENGTH && StatusFits(status, s)
    requires forall e :: e in s.trace ==> ValidEntry(e)
    ensures Accepted(BuildPacket(m, b, query, terms, manifestHash, status, s)) <==> |terms| <= MAX_QUERY_TERMS
  {
    var p := BuildPacket(m, b, query, terms, manifestHash, status, s);
    assert ReferenceClosedPacket(p.sources, p.evidence, p.questions, p.hypotheses, p.relations, p.timeline, p.gaps) &&
           WithinRouteBudget(p) by {
      PacketIsReferenceClosed(m, b, query, terms, manifestHash, status, s);
      PacketFits(m, b, query, terms, manifestHash, status, s);
    }
    assert |s.trace| <= MAX_TRACE && |s.omissions| <= MAX_OMISSIONS by {
      TraceCap(m, b, Held(s.trace));
      OmissionCap(m, Refused(s.omissions));
    }
    assert ValidTrace(p) by { PacketTraceValid(m, b, query, terms, manifestHash, status, s); }
    assert ConsistentStatus(p) by {
      if s.trace == [] { NothingHeldNothingPacked(m, b, query, terms, manifestHash, status, s); }
      PacketKeysAreHeld(m, b, query, terms, manifestHash, status, s);
      StatusIsConsistent(p, s);
    }
    LimitsFollow(p);
  }
}
