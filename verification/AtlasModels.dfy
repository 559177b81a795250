// The Research Atlas interchange contract: records, and the graph validation
// that every manifest in circulation has passed.

module AtlasModels {
  import opened Common

  datatype Source = Source(sourceId: Id)

  datatype Evidence = Evidence(evidenceId: Id, sourceId: Id)

  datatype TraceSpan = TraceSpan(spanId: Id, evidenceIds: seq<Id>)

  datatype Question = Question(
    questionId: Id, prompt: string, shortAnswer: string, gap: string, tags: seq<string>,
    evidenceIds: seq<Id>, traceSpans: seq<TraceSpan>)

  datatype Hypothesis = Hypothesis(
    hypothesisId: Id, title: string, synthesis: string, gap: string,
    evidenceIds: seq<Id>, counterevidenceIds: seq<Id>, questionIds: seq<Id>, traceSpans: seq<TraceSpan>)

  datatype Relation = Relation(
    relationId: Id, sourceHypothesisId: Id, targetHypothesisId: Id, evidenceIds: seq<Id>)

  datatype TimelineEvent = TimelineEvent(
    eventId: Id, title: string, summary: string, dateLabel: string,
    evidenceIds: seq<Id>, questionIds: seq<Id>, hypothesisIds: seq<Id>)

  datatype Gap = Gap(
    gapId: Id, gapLabel: string, whyItMatters: string, nextEvidence: string,
    relatedQuestionIds: seq<Id>, relatedHypothesisIds: seq<Id>)

  datatype ManifestData = ManifestData(
    atlasId: Id, caseId: Id,
    sources: seq<Source>, evidence: seq<Evidence>, questions: seq<Question>,
    hypotheses: seq<Hypothesis>, relations: seq<Relation>, timeline: seq<TimelineEvent>, gaps: seq<Gap>)

  function SourceKey(x: Source): Id { x.sourceId }

  function EvidenceKey(x: Evidence): Id { x.evidenceId }

  function QuestionKey(x: Question): Id { x.questionId }

  function HypothesisKey(x: Hypothesis): Id { x.hypothesisId }

  function RelationKey(x: Relation): Id { x.relationId }

  function TimelineEventKey(x: TimelineEvent): Id { x.eventId }

  function GapKey(x: Gap): Id { x.gapId }

  predicate UniqueIds(m: ManifestData) {
    UniqueBy(m.sources, SourceKey) &&
    UniqueBy(m.evidence, EvidenceKey) &&
    UniqueBy(m.questions, QuestionKey) &&
    UniqueBy(m.hypotheses, HypothesisKey) &&
    UniqueBy(m.relations, RelationKey) &&
    UniqueBy(m.timeline, TimelineEventKey) &&
    UniqueBy(m.gaps, GapKey)
  }

  function SourceIds(s: seq<Source>): set<Id> { set x | x in s :: x.sourceId }

  function EvidenceIds(s: seq<Evidence>): set<Id> { set x | x in s :: x.evidenceId }

  function QuestionIds(s: seq<Question>): set<Id> { set x | x in s :: x.questionId }

  function HypothesisIds(s: seq<Hypothesis>): set<Id> { set x | x in s :: x.hypothesisId }

  // Every reference lands inside the collections it is checked against. The
  // manifest and both packet schemas share these rules.
  predicate EvidenceCloses(evidence: seq<Evidence>, sourceIds: set<Id>) {
    forall e :: e in evidence ==> e.sourceId in sourceIds
  }

  predicate QuestionsClose(questions: seq<Question>, evidenceIds: set<Id>) {
    forall q :: q in questions ==> Elems(q.evidenceIds) <= evidenceIds
  }

  predicate HypothesesClose(hypotheses: seq<Hypothesis>, evidenceIds: set<Id>, questionIds: set<Id>) {
    forall h :: h in hypotheses ==>
      Elems(h.evidenceIds) <= evidenceIds && Elems(h.counterevidenceIds) <= evidenceIds &&
      Elems(h.questionIds) <= questionIds
  }

  predicate RelationsClose(relations: seq<Relation>, evidenceIds: set<Id>, hypothesisIds: set<Id>) {
    forall r :: r in relations ==>
      r.sourceHypothesisId in hypothesisIds && r.targetHypothesisId in hypothesisIds &&
      Elems(r.evidenceIds) <= evidenceIds
  }

  predicate TimelineCloses(
    timeline: seq<TimelineEvent>, evidenceIds: set<Id>, questionIds: set<Id>, hypothesisIds: set<Id>)
  {
    forall t :: t in timeline ==>
      Elems(t.evidenceIds) <= evidenceIds && Elems(t.questionIds) <= questionIds &&
      Elems(t.hypothesisIds) <= hypothesisIds
  }

  predicate GapsClose(gaps: seq<Gap>, questionIds: set<Id>, hypothesisIds: set<Id>) {
    forall g :: g in gaps ==>
      Elems(g.relatedQuestionIds) <= questionIds && Elems(g.relatedHypothesisIds) <= hypothesisIds
  }

  predicate ClosedReferences(
    sources: seq<Source>, evidence: seq<Evidence>, questions: seq<Question>, hypotheses: seq<Hypothesis>,
    relations: seq<Relation>, timeline: seq<TimelineEvent>, gaps: seq<Gap>)
  {
    EvidenceCloses(evidence, SourceIds(sources)) &&
    QuestionsClose(questions, EvidenceIds(evidence)) &&
    HypothesesClose(hypotheses, EvidenceIds(evidence), QuestionIds(questions)) &&
    RelationsClose(relations, EvidenceIds(evidence), HypothesisIds(hypotheses)) &&
    TimelineCloses(timeline, EvidenceIds(evidence), QuestionIds(questions), HypothesisIds(hypotheses)) &&
    GapsClose(gaps, QuestionIds(questions), HypothesisIds(hypotheses))
  }

  predicate TraceSpansResolve(m: ManifestData) {
    var evidenceIds := EvidenceIds(m.evidence);
    (forall q, s :: q in m.questions && s in q.traceSpans ==> Elems(s.evidenceIds) <= evidenceIds) &&
    (forall h, s :: h in m.hypotheses && s in h.traceSpans ==> Elems(s.evidenceIds) <= evidenceIds)
  }

  predicate WithinCollectionLimits(m: ManifestData) {
    |m.sources| <= 10_000 && |m.evidence| <= 10_000 && |m.questions| <= 1_000 && |m.hypotheses| <= 1_000 &&
    |m.relations| <= 4_000 && |m.timeline| <= 4_000 && |m.gaps| <= 1_000
  }

  predicate ValidGraph(m: ManifestData) {
    UniqueIds(m) &&
    ClosedReferences(m.sources, m.evidence, m.questions, m.hypotheses, m.relations, m.timeline, m.gaps) &&
    TraceSpansResolve(m) &&
    WithinCollectionLimits(m) &&
    (forall r :: r in m.relations ==> r.sourceHypothesisId != r.targetHypothesisId)
  }

  // A manifest object exists only after its validators have passed.
  type Manifest = m: ManifestData | ValidGraph(m)
    witness ManifestData("atlas", "case", [], [], [], [], [], [], [])

  // What the routers take from outside this model: query normalisation (NFC
  // and strip), the word terms of a text, and the digest of a manifest.
  datatype Host = Host(
    normalizeQuery: string -> string,
    terms: string -> set<string>,
    digest: Manifest -> string)
}
