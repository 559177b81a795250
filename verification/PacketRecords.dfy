// What a routed packet holds, record by record, and when a route succeeds.

module PacketRecords {
  import opened Common
  import opened AtlasModels
  import opened SemanticRoute
  import opened RouteGraph
  import opened RouteRun
  import opened RouteInvariant
  import opened RouteTheorems
  import opened RoutePacket
  import opened RouteRecords
  import opened BoundedRouter

  // ------------------------------------------------------------------ evidence

  predicate QuestionNames(m: ManifestData, s: Selection, id: Id) {
    exists x :: x in m.questions && Admitted(s, QuestionKind, x.questionId) && id in x.evidenceIds
  }

  predicate HypothesisCites(m: ManifestData, s: Selection, id: Id) {
    exists x :: x in m.hypotheses && Admitted(s, HypothesisKind, x.hypothesisId) &&
      (id in x.evidenceIds || id in x.counterevidenceIds)
  }

  predicate RelationNames(m: ManifestData, s: Selection, id: Id) {
    exists x :: x in m.relations && Admitted(s, RelationKind, x.relationId) && id in x.evidenceIds
  }

  predicate EventCites(m: ManifestData, s: Selection, id: Id) {
    exists x :: x in m.timeline && Admitted(s, TimelineKind, x.eventId) && id in x.evidenceIds
  }

  // Some admitted object names the evidence.
  predicate EvidenceNamed(m: ManifestData, s: Selection, id: Id) {
    QuestionNames(m, s, id) || HypothesisCites(m, s, id) || RelationNames(m, s, id) || EventCites(m, s, id)
  }

  lemma HeldNames(m: ManifestData, s: Selection, k: Key, id: Id)
    requires UniqueIds(m) && Known(m, k) && k in Held(s.trace) && id in OwnEvidence(m, k)
    ensures EvidenceNamed(m, s, id)
  {
    RecordOf(m, k);
    assert k.kind != GapKind;
    hide UniqueIds, Known, Held, OwnEvidence, Admitted;
    HeldIsAdmitted(s, k.kind, k.id);
    match k.kind {
      case QuestionKind => var x :| x in m.questions && x.questionId == k.id; QuestionFields(m, x);
      case HypothesisKind => var x :| x in m.hypotheses && x.hypothesisId == k.id; HypothesisFields(m, x);
      case RelationKind => var x :| x in m.relations && x.relationId == k.id; RelationFields(m, x);
      case TimelineKind => var x :| x in m.timeline && x.eventId == k.id; EventFields(m, x);
      case GapKind => assert false;
    }
  }

  lemma NamedIsHeld(m: ManifestData, s: Selection, id: Id) returns (k: Key)
    requires UniqueIds(m) && EvidenceNamed(m, s, id)
    ensures k in Held(s.trace) && id in OwnEvidence(m, k)
  {
    hide UniqueIds, Held, OwnEvidence, Admitted;
    if QuestionNames(m, s, id) {
      var x :| x in m.questions && Admitted(s, QuestionKind, x.questionId) && id in x.evidenceIds;
      QuestionFields(m, x);
      k := Key(QuestionKind, x.questionId);
    } else if HypothesisCites(m, s, id) {
      var x :| x in m.hypotheses && Admitted(s, HypothesisKind, x.hypothesisId) && (id in x.evidenceIds || id in x.counterevidenceIds);
      HypothesisFields(m, x);
      k := Key(HypothesisKind, x.hypothesisId);
    } else if RelationNames(m, s, id) {
      var x :| x in m.relations && Admitted(s, RelationKind, x.relationId) && id in x.evidenceIds;
      RelationFields(m, x);
      k := Key(RelationKind, x.relationId);
    } else {
      var x :| x in m.timeline && Admitted(s, TimelineKind, x.eventId) && id in x.evidenceIds;
      EventFields(m, x);
      k := Key(TimelineKind, x.eventId);
    }
    HeldIsAdmitted(s, k.kind, k.id);
  }

  lemma EvidenceByRecord(m: ManifestData, s: Selection, id: Id)
    requires UniqueIds(m) && forall k :: k in Held(s.trace) ==> Known(m, k)
    ensures id in EvidenceOf(m, Held(s.trace)) <==> EvidenceNamed(m, s, id)
  {
    hide UniqueIds, Known, Held, OwnEvidence, EvidenceNamed;
    if id in EvidenceOf(m, Held(s.trace)) {
      var k :| k in Held(s.trace) && id in OwnEvidence(m, k);
      HeldNames(m, s, k, id);
    }
    if EvidenceNamed(m, s, id) { var k := NamedIsHeld(m, s, id); }
  }

  // ------------------------------------------------------------------ contents

  lemma PickedExactly<T>(m: ManifestData, s: Selection, kind: Kind, key: T -> Id, items: seq<T>)
    requires |Held(s.trace)| == |s.trace| && UniqueBy(items, key)
    requires forall k :: k in Held(s.trace) && k.kind == kind ==> FindBy(key, items, k.id).Some?
    ensures forall x :: x in Pick(key, items, Order(s.trace, kind)) <==> x in items && Admitted(s, kind, key(x))
  {
    var order := Order(s.trace, kind);
    PickedOrder(m, s, kind, key, items);
    OrderElems(s.trace, kind);
    forall x ensures x in Pick(key, items, order) <==> x in items && Admitted(s, kind, key(x)) {
      HeldIsAdmitted(s, kind, key(x));
      hide Admitted, Held, Distinct, Order;
      if x in items && Key(kind, key(x)) in Held(s.trace) {
        FindByKey(key, items, x);
        assert key(x) in Elems(order);
        var i :| 0 <= i < |order| && order[i] == key(x);
        assert Map(key, Pick(key, items, order))[i] == key(x);
      }
    }
  }

  // The trace reaches the one key before the other.
  ghost predicate Before(trace: seq<TraceEntry>, j: Key, k: Key) {
    exists a, b :: 0 <= a < b < |trace| && trace[a].key == j && trace[b].key == k
  }

  ghost predicate AsAdmitted(trace: seq<TraceEntry>, kind: Kind, ids: seq<Id>) {
    forall i, j :: 0 <= i < j < |ids| ==> Before(trace, Key(kind, ids[i]), Key(kind, ids[j]))
  }

  lemma {:induction false} OrderAsAdmitted(trace: seq<TraceEntry>, kind: Kind)
    ensures AsAdmitted(trace, kind, Order(trace, kind))
    ensures forall id :: id in Order(trace, kind) ==> exists a :: 0 <= a < |trace| && trace[a].key == Key(kind, id)
  {
    if trace != [] {
      var front, e := trace[..|trace| - 1], trace[|trace| - 1];
      var ids, all := Order(front, kind), Order(trace, kind);
      OrderAsAdmitted(front, kind);
      assert all == ids + (if e.key.kind == kind then [e.key.id] else []);
      hide Order;
      forall id | id in all ensures exists a :: 0 <= a < |trace| && trace[a].key == Key(kind, id) {
        if id in ids {
          var a :| 0 <= a < |front| && front[a].key == Key(kind, id);
          assert trace[a].key == Key(kind, id);
        } else {
          assert trace[|front|].key == Key(kind, id);
        }
      }
      forall i, j | 0 <= i < j < |all| ensures Before(trace, Key(kind, all[i]), Key(kind, all[j])) {
        if j < |ids| {
          var a, b :| 0 <= a < b < |front| && front[a].key == Key(kind, ids[i]) && front[b].key == Key(kind, ids[j]);
          assert trace[a].key == Key(kind, all[i]) && trace[b].key == Key(kind, all[j]);
        } else {
          assert ids[i] in ids;
          var a :| 0 <= a < |front| && front[a].key == Key(kind, ids[i]);
          assert trace[a].key == Key(kind, all[i]) && trace[|front|].key == Key(kind, all[j]);
        }
      }
    }
  }

  // Every list holds exactly the admitted records of its kind, question and
  // hypothesis records without their spans.
  ghost predicate HoldsAdmitted(p: Packet, m: ManifestData, s: Selection) {
    HoldsQuestions(p.questions, m, s) && HoldsHypotheses(p.hypotheses, m, s) &&
    HoldsLinked(p.relations, p.timeline, p.gaps, m, s)
  }

  ghost predicate HoldsQuestions(qs: seq<Question>, m: ManifestData, s: Selection) {
    forall q :: q in qs <==> exists x :: x in m.questions && Admitted(s, QuestionKind, x.questionId) && q == x.(traceSpans := [])
  }

  ghost predicate HoldsHypotheses(hs: seq<Hypothesis>, m: ManifestData, s: Selection) {
    forall h :: h in hs <==> exists x :: x in m.hypotheses && Admitted(s, HypothesisKind, x.hypothesisId) && h == x.(traceSpans := [])
  }

  ghost predicate HoldsLinked(relations: seq<Relation>, timeline: seq<TimelineEvent>, gaps: seq<Gap>, m: ManifestData, s: Selection) {
    (forall x :: x in relations <==> x in m.relations && Admitted(s, RelationKind, x.relationId)) &&
    (forall x :: x in timeline <==> x in m.timeline && Admitted(s, TimelineKind, x.eventId)) &&
    (forall x :: x in gaps <==> x in m.gaps && Admitted(s, GapKind, x.gapId))
  }

  // Exactly the evidence that admitted records name, and exactly its sources.
  ghost predicate HoldsResources(p: Packet, m: ManifestData, s: Selection) {
    (forall x :: x in p.evidence <==> x in m.evidence && EvidenceNamed(m, s, x.evidenceId)) &&
    (forall x :: x in p.sources <==> x in m.sources && exists e :: e in p.evidence && e.sourceId == x.sourceId)
  }

  ghost predicate InAdmissionOrder(p: Packet, s: Selection) {
    AsAdmitted(s.trace, QuestionKind, Map(QuestionKey, p.questions)) &&
    AsAdmitted(s.trace, HypothesisKind, Map(HypothesisKey, p.hypotheses)) &&
    AsAdmitted(s.trace, RelationKind, Map(RelationKey, p.relations)) &&
    AsAdmitted(s.trace, TimelineKind, Map(TimelineEventKey, p.timeline)) &&
    AsAdmitted(s.trace, GapKind, Map(GapKey, p.gaps))
  }

  lemma ListsAsAdmitted(
    m: ManifestData, b: RouteBudget, query: string, terms: set<string>, manifestHash: string, status: RouteStatus, s: Selection)
    requires |Held(s.trace)| == |s.trace| && forall k :: k in Held(s.trace) ==> Known(m, k)
    ensures InAdmissionOrder(BuildPacket(m, b, query, terms, manifestHash, status, s), s)
  {
    hide *;
    PacketLists(m, b, query, terms, manifestHash, status, s);
    OrderAsAdmitted(s.trace, QuestionKind);
    OrderAsAdmitted(s.trace, HypothesisKind);
    OrderAsAdmitted(s.trace, RelationKind);
    OrderAsAdmitted(s.trace, TimelineKind);
    OrderAsAdmitted(s.trace, GapKind);
    InOrderIs(BuildPacket(m, b, query, terms, manifestHash, status, s), s);
  }

  lemma InOrderIs(p: Packet, s: Selection)
    requires AsAdmitted(s.trace, QuestionKind, Map(QuestionKey, p.questions))
    requires AsAdmitted(s.trace, HypothesisKind, Map(HypothesisKey, p.hypotheses))
    requires AsAdmitted(s.trace, RelationKind, Map(RelationKey, p.relations))
    requires AsAdmitted(s.trace, TimelineKind, Map(TimelineEventKey, p.timeline))
    requires AsAdmitted(s.trace, GapKind, Map(GapKey, p.gaps))
    ensures InAdmissionOrder(p, s)
  {
  }

  lemma MappedExactly<A, B>(f: A -> B, xs: seq<A>)
    ensures forall y :: y in Map(f, xs) <==> exists x :: x in xs && f(x) == y
  {
    MapElems(f, xs);
    forall y ensures y in Map(f, xs) <==> y in Elems(Map(f, xs)) {}
  }

  lemma ListsHoldAdmitted(
    m: ManifestData, b: RouteBudget, query: string, terms: set<string>, manifestHash: string, status: RouteStatus, s: Selection)
    requires UniqueIds(m) && |Held(s.trace)| == |s.trace| && forall k :: k in Held(s.trace) ==> Known(m, k)
    ensures HoldsAdmitted(BuildPacket(m, b, query, terms, manifestHash, status, s), m, s)
  {
    hide HoldsQuestions, HoldsHypotheses, HoldsLinked, UniqueIds, Known, Held, EvidenceOf, SourcesOf, KeepIds, Pick, Map, Order;
    QuestionsHeld(m, s);
    HypothesesHeld(m, s);
    LinkedHeld(m, s);
  }

  lemma LinkedHeld(m: ManifestData, s: Selection)
    requires UniqueIds(m) && |Held(s.trace)| == |s.trace| && forall k :: k in Held(s.trace) ==> Known(m, k)
    ensures
      HoldsLinked(
        Pick(RelationKey, m.relations, Order(s.trace, RelationKind)), Pick(TimelineEventKey, m.timeline, Order(s.trace, TimelineKind)),
        Pick(GapKey, m.gaps, Order(s.trace, GapKind)), m, s)
  {
    RelationsHeld(m, s);
    EventsHeld(m, s);
    GapsHeld(m, s);
    hide Admitted, Held, Known, Pick, Order, UniqueIds;
  }

  lemma RelationsHeld(m: ManifestData, s: Selection)
    requires UniqueIds(m) && |Held(s.trace)| == |s.trace| && forall k :: k in Held(s.trace) ==> Known(m, k)
    ensures forall x :: x in Pick(RelationKey, m.relations, Order(s.trace, RelationKind)) <==> x in m.relations && Admitted(s, RelationKind, x.relationId)
  {
    PickedExactly(m, s, RelationKind, RelationKey, m.relations);
    hide Admitted, Held, Known, Pick, Order, UniqueIds;
  }

  lemma EventsHeld(m: ManifestData, s: Selection)
    requires UniqueIds(m) && |Held(s.trace)| == |s.trace| && forall k :: k in Held(s.trace) ==> Known(m, k)
    ensures forall x :: x in Pick(TimelineEventKey, m.timeline, Order(s.trace, TimelineKind)) <==> x in m.timeline && Admitted(s, TimelineKind, x.eventId)
  {
    PickedExactly(m, s, TimelineKind, TimelineEventKey, m.timeline);
    hide Admitted, Held, Known, Pick, Order, UniqueIds;
  }

  lemma GapsHeld(m: ManifestData, s: Selection)
    requires UniqueIds(m) && |Held(s.trace)| == |s.trace| && forall k :: k in Held(s.trace) ==> Known(m, k)
    ensures forall x :: x in Pick(GapKey, m.gaps, Order(s.trace, GapKind)) <==> x in m.gaps && Admitted(s, GapKind, x.gapId)
  {
    PickedExactly(m, s, GapKind, GapKey, m.gaps);
    hide Admitted, Held, Known, Pick, Order, UniqueIds;
  }

  lemma QuestionsHeld(m: ManifestData, s: Selection)
    requires UniqueIds(m) && |Held(s.trace)| == |s.trace| && forall k :: k in Held(s.trace) ==> Known(m, k)
    ensures HoldsQuestions(Map(WithoutSpans, Pick(QuestionKey, m.questions, Order(s.trace, QuestionKind))), m, s)
  {
    PickedExactly(m, s, QuestionKind, QuestionKey, m.questions);
    MappedExactly(WithoutSpans, Pick(QuestionKey, m.questions, Order(s.trace, QuestionKind)));
    hide Admitted, Held, Known, Map, Pick, Order, Distinct;
  }

  lemma HypothesesHeld(m: ManifestData, s: Selection)
    requires UniqueIds(m) && |Held(s.trace)| == |s.trace| && forall k :: k in Held(s.trace) ==> Known(m, k)
    ensures HoldsHypotheses(Map(WithoutHypothesisSpans, Pick(HypothesisKey, m.hypotheses, Order(s.trace, HypothesisKind))), m, s)
  {
    PickedExactly(m, s, HypothesisKind, HypothesisKey, m.hypotheses);
    MappedExactly(WithoutHypothesisSpans, Pick(HypothesisKey, m.hypotheses, Order(s.trace, HypothesisKind)));
    hide Admitted, Held, Known, Map, Pick, Order, Distinct;
  }

  lemma KeptExactly<T>(key: T -> Id, items: seq<T>, wanted: set<Id>)
    ensures forall x :: x in KeepIds(key, items, wanted) <==> x in items && key(x) in wanted
  {
  }

  lemma SourcesByRecord(m: ManifestData, ids: set<Id>, evidence: seq<Evidence>, id: Id)
    requires UniqueIds(m) && forall x :: x in evidence <==> x in m.evidence && x.evidenceId in ids
    ensures id in SourcesOf(m, ids) <==> exists e :: e in evidence && e.sourceId == id
  {
    if id in SourcesOf(m, ids) {
      var i :| i in ids && FindBy(EvidenceKey, m.evidence, i).Some? && FindBy(EvidenceKey, m.evidence, i).value.sourceId == id;
      assert FindBy(EvidenceKey, m.evidence, i).value in evidence;
    }
    if e :| e in evidence && e.sourceId == id { FindByKey(EvidenceKey, m.evidence, e); }
  }

  lemma ListsHoldResources(
    m: ManifestData, b: RouteBudget, query: string, terms: set<string>, manifestHash: string, status: RouteStatus, s: Selection)
    requires UniqueIds(m) && |Held(s.trace)| == |s.trace| && forall k :: k in Held(s.trace) ==> Known(m, k)
    ensures HoldsResources(BuildPacket(m, b, query, terms, manifestHash, status, s), m, s)
  {
    var ids := EvidenceOf(m, Held(s.trace));
    var evidence := KeepIds(EvidenceKey, m.evidence, ids);
    KeptExactly(EvidenceKey, m.evidence, ids);
    KeptExactly(SourceKey, m.sources, SourcesOf(m, ids));
    hide UniqueIds, Held, Known, Map, Pick, Order, KeepIds, EvidenceOf, SourcesOf, EvidenceNamed;
    forall id ensures id in ids <==> EvidenceNamed(m, s, id) { EvidenceByRecord(m, s, id); }
    forall id ensures id in SourcesOf(m, ids) <==> exists e :: e in evidence && e.sourceId == id {
      SourcesByRecord(m, ids, evidence, id);
    }
  }

  // ------------------------------------------------------------------ the route

  // The receipt is for this manifest and query, and names only its questions.
  ghost predicate IssuedFor(r: Receipt, m: Manifest, manifestHash: string, query: string, host: Host) {
    manifestHash == host.digest(m) && r.query == host.normalizeQuery(query) &&
    r.atlasId == m.atlasId && r.caseId == m.caseId && r.manifestHash == manifestHash &&
    (forall c :: c in r.semantic ==> exists q :: q in m.questions && q.questionId == c.questionId) &&
    (forall c :: c in r.lexical ==> exists q :: q in m.questions && q.questionId == c.questionId)
  }

  lemma IssuedExactly(r: Receipt, m: Manifest, manifestHash: string, query: string, host: Host)
    ensures FreshFor(r, m, manifestHash, query, host) <==> IssuedFor(r, m, manifestHash, query, host)
  {
    var known := QuestionIds(m.questions);
    assert forall id :: id in known <==> exists q :: q in m.questions && q.questionId == id;
    hide QuestionIds;
    CandidatesNamed(r, known);
  }

  lemma CandidatesNamed(r: Receipt, known: set<Id>)
    ensures (forall c :: c in r.OrderedCandidates() ==> c.QuestionId() in known) <==>
            (forall c :: c in r.semantic ==> c.questionId in known) && (forall c :: c in r.lexical ==> c.questionId in known)
  {
    MappedExactly((c: SemanticCandidate) => Semantic(c), r.semantic);
    MappedExactly((c: LexicalCandidate) => Lexical(c), r.lexical);
    hide Map;
    forall c | c in r.semantic ensures Semantic(c) in r.OrderedCandidates() {}
    forall c | c in r.lexical ensures Lexical(c) in r.OrderedCandidates() {}
  }

  // Nothing to route, nothing admitted, or something admitted.
  ghost predicate StatusSays(p: Packet, r: Receipt) {
    (p.status == StatusNoMatch <==> r.decision == Abstained || (r.semantic == [] && r.lexical == [])) &&
    (p.status == StatusRouted <==> exists e :: e in p.trace && e.origin.FromSeed?) &&
    (p.status == StatusNoMatch ==> p.trace == [] && p.omissions == []) &&
    (p.status == StatusBudgetExceeded ==> p.trace == [] && p.omissions != [])
  }

  predicate FitsBudget(p: Packet, b: RouteBudget) {
    |p.questions| <= b.maxQuestions && |p.hypotheses| <= b.maxLinkedHypotheses && |p.relations| <= b.maxRelations &&
    |p.timeline| <= b.maxTimelineEvents && |p.gaps| <= b.maxGaps && |p.evidence| <= b.maxEvidence && |p.sources| <= b.maxSources
  }

  lemma SelectionHolds(m: Manifest, b: RouteBudget, r: Receipt)
    requires KnownCandidates(m, r.OrderedCandidates())
    ensures var s := SelectionFor(m, b, r);
            |Held(s.trace)| == |s.trace| && Inv(m, b, s) && forall k :: k in Held(s.trace) ==> Known(m, k)
  {
    NothingSelectedInv(m, b);
    RunKeepsInv(m, b, r.OrderedCandidates());
    InvHolds(m, b, NothingSelected);
    InvHolds(m, b, Run(m, b, r.OrderedCandidates()));
  }

  lemma InvHolds(m: ManifestData, b: Limits, s: Selection)
    requires Inv(m, b, s)
    ensures |Held(s.trace)| == |s.trace| && forall k :: k in Held(s.trace) ==> Known(m, k)
  {
  }

  // What route_v2 returns when it returns: the packet of the manifest and query,
  // within the budget, holding exactly the admitted records and their resources.
  lemma RoutedPacketSays(m: Manifest, b: RouteBudget, query: string, terms: set<string>, manifestHash: string, r: Receipt)
    requires ValidReceipt(r) && KnownCandidates(m, r.OrderedCandidates()) && 0 < |query| <= MAX_QUERY_LENGTH
    ensures
      var s := SelectionFor(m, b, r);
      var p := BuildPacket(m, b, query, terms, manifestHash, StatusFor(m, b, r), s);
      HoldsAdmitted(p, m, s) && HoldsResources(p, m, s) && InAdmissionOrder(p, s) && StatusSays(p, r) && FitsBudget(p, b) &&
      p.trace == s.trace && p.omissions == s.omissions && p.query == query && p.queryTerms == terms &&
      p.atlasId == m.atlasId && p.caseId == m.caseId && p.manifestHash == manifestHash
  {
    var s, status := SelectionFor(m, b, r), StatusFor(m, b, r);
    ManifestFacts(m);
    hide *;
    SelectionHolds(m, b, r);
    ListsHoldAdmitted(m, b, query, terms, manifestHash, status, s);
    ListsHoldResources(m, b, query, terms, manifestHash, status, s);
    ListsAsAdmitted(m, b, query, terms, manifestHash, status, s);
    StatusIsSaid(m, b, query, terms, manifestHash, r);
    BudgetIsKept(m, b, query, terms, manifestHash, r);
    PacketNames(m, b, query, terms, manifestHash, status, s);
  }

  lemma PacketNames(
    m: ManifestData, b: RouteBudget, query: string, terms: set<string>, manifestHash: string, status: RouteStatus, s: Selection)
    ensures
      var p := BuildPacket(m, b, query, terms, manifestHash, status, s);
      p.status == status && p.trace == s.trace && p.omissions == s.omissions && p.query == query && p.queryTerms == terms &&
      p.atlasId == m.atlasId && p.caseId == m.caseId && p.manifestHash == manifestHash
  {
    hide EvidenceOf, SourcesOf, KeepIds, Pick, Order, Held;
  }

  lemma BudgetIsKept(m: Manifest, b: RouteBudget, query: string, terms: set<string>, manifestHash: string, r: Receipt)
    requires ValidReceipt(r) && KnownCandidates(m, r.OrderedCandidates()) && 0 < |query| <= MAX_QUERY_LENGTH
    ensures FitsBudget(BuildPacket(m, b, query, terms, manifestHash, StatusFor(m, b, r), SelectionFor(m, b, r)), b)
  {
    var s, status := SelectionFor(m, b, r), StatusFor(m, b, r);
    ManifestFacts(m);
    SelectionHolds(m, b, r);
    assert CapacityReason(m, b, Held(s.trace)) == None;
    hide Inv, Held, Known, References, UniqueIds, StatusFor, SelectionFor, CapacityReason, EvidenceOf, SourcesOf;
    PacketIsReferenceClosed(m, b, query, terms, manifestHash, status, s);
    PacketFits(m, b, query, terms, manifestHash, status, s);
  }

  lemma SeededTrace(trace: seq<TraceEntry>)
    ensures SeedIds(trace) != {} <==> exists e :: e in trace && e.origin.FromSeed?
  {
    if e :| e in trace && e.origin.FromSeed? { assert e.key.id in SeedIds(trace); }
  }

  lemma StatusIsSaid(m: Manifest, b: RouteBudget, query: string, terms: set<string>, manifestHash: string, r: Receipt)
    requires KnownCandidates(m, r.OrderedCandidates())
    ensures StatusSays(BuildPacket(m, b, query, terms, manifestHash, StatusFor(m, b, r), SelectionFor(m, b, r)), r)
  {
    var s, status := SelectionFor(m, b, r), StatusFor(m, b, r);
    ManifestFacts(m);
    PacketNames(m, b, query, terms, manifestHash, status, s);
    CandidateCount(r);
    SeededTrace(s.trace);
    hide BuildPacket, Run, KnownCandidates, References, UniqueIds, SeedIds;
    if r.decision != Abstained && r.OrderedCandidates() != [] { SeedsMakeStatus(m, b, r.OrderedCandidates()); }
    assert SeedIds([]) == {} by { SeededTrace([]); }
  }

  lemma CandidateCount(r: Receipt)
    ensures r.OrderedCandidates() == [] <==> r.semantic == [] && r.lexical == []
  {
  }

  // -------------------------------------------------------------------- budgets

  // When holding a set of objects overruns a budget.
  lemma ExceedsExactly(m: ManifestData, b: Limits, keys: set<Key>, reason: OmissionReason)
    requires UniqueIds(m)
    ensures
      var evidence := set k, id | k in keys && id in OwnEvidence(m, k) :: id;
      Exceeds(m, b, keys, reason) <==>
      match reason
      case QuestionBudget => |set k | k in keys && k.kind == QuestionKind :: k.id| > b.maxQuestions
      case HypothesisBudget => |set k | k in keys && k.kind == HypothesisKind :: k.id| > b.maxLinkedHypotheses
      case RelationBudget => |set k | k in keys && k.kind == RelationKind :: k.id| > b.maxRelations
      case TimelineBudget => |set k | k in keys && k.kind == TimelineKind :: k.id| > b.maxTimelineEvents
      case GapBudget => |set k | k in keys && k.kind == GapKind :: k.id| > b.maxGaps
      case EvidenceBudget => |evidence| > b.maxEvidence
      case SourceBudget => |set x | x in m.evidence && x.evidenceId in evidence :: x.sourceId| > b.maxSources
      case ReferenceBudget => false
  {
    SourcesExactly(m, EvidenceOf(m, keys));
    hide UniqueIds, OwnEvidence, SourcesOf;
  }

  function Turn(reason: OmissionReason): nat {
    match reason
    case QuestionBudget => 0 case HypothesisBudget => 1 case RelationBudget => 2 case TimelineBudget => 3
    case GapBudget => 4 case EvidenceBudget => 5 case SourceBudget => 6 case ReferenceBudget => 7
  }

  // The refusal names the first budget overrun, in this order.
  lemma FirstOverrun(m: ManifestData, b: Limits, keys: set<Key>, reason: OmissionReason)
    ensures CapacityReason(m, b, keys) == Some(reason) <==>
            Exceeds(m, b, keys, reason) && forall other :: Exceeds(m, b, keys, other) ==> Turn(reason) <= Turn(other)
  {
    CapacityReasonExceeds(m, b, keys);
    assert !Exceeds(m, b, keys, ReferenceBudget);
    hide Exceeds;
    forall other | CapacityReason(m, b, keys) == Some(reason) && Exceeds(m, b, keys, other) ensures Turn(reason) <= Turn(other) {
      match other
      case QuestionBudget => case HypothesisBudget => case RelationBudget => case TimelineBudget =>
      case GapBudget => case EvidenceBudget => case SourceBudget => case ReferenceBudget =>
    }
  }

  lemma SourcesExactly(m: ManifestData, ids: set<Id>)
    requires UniqueIds(m)
    ensures SourcesOf(m, ids) == set x | x in m.evidence && x.evidenceId in ids :: x.sourceId
  {
    forall x | x in m.evidence ensures FindBy(EvidenceKey, m.evidence, x.evidenceId) == Some(x) { FindByKey(EvidenceKey, m.evidence, x); }
    forall id | id in ids && FindBy(EvidenceKey, m.evidence, id).Some?
      ensures FindBy(EvidenceKey, m.evidence, id).value in m.evidence && FindBy(EvidenceKey, m.evidence, id).value.evidenceId == id
    {
    }
  }
}
