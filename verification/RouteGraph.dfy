// What the bounded router reads off a manifest: object keys, their references,
// and the closure that admitting one object drags in.

module RouteGraph {
  import opened Common
  import opened AtlasModels

  datatype Kind = QuestionKind | HypothesisKind | RelationKind | TimelineKind | GapKind

  datatype Key = Key(kind: Kind, id: Id)

  function KeysOf(kind: Kind, ids: seq<Id>): seq<Key> {
    Map(id => Key(kind, id), ids)
  }

  function OfKind(keys: set<Key>, kind: Kind): set<Id> {
    set k | k in keys && k.kind == kind :: k.id
  }

  predicate Known(m: ManifestData, k: Key) {
    match k.kind
    case QuestionKind => FindBy(QuestionKey, m.questions, k.id).Some?
    case HypothesisKind => FindBy(HypothesisKey, m.hypotheses, k.id).Some?
    case RelationKind => FindBy(RelationKey, m.relations, k.id).Some?
    case TimelineKind => FindBy(TimelineEventKey, m.timeline, k.id).Some?
    case GapKind => FindBy(GapKey, m.gaps, k.id).Some?
  }

  // Evidence an object names itself; a hypothesis also names counterevidence.
  function OwnEvidence(m: ManifestData, k: Key): set<Id> {
    match k.kind
    case QuestionKind => (match FindBy(QuestionKey, m.questions, k.id)
      case Some(q) => Elems(q.evidenceIds) case None => {})
    case HypothesisKind => (match FindBy(HypothesisKey, m.hypotheses, k.id)
      case Some(h) => Elems(h.evidenceIds) + Elems(h.counterevidenceIds) case None => {})
    case RelationKind => (match FindBy(RelationKey, m.relations, k.id)
      case Some(r) => Elems(r.evidenceIds) case None => {})
    case TimelineKind => (match FindBy(TimelineEventKey, m.timeline, k.id)
      case Some(t) => Elems(t.evidenceIds) case None => {})
    case GapKind => {}
  }

  function QuestionRefs(m: ManifestData, k: Key): seq<Id> {
    match k.kind
    case HypothesisKind => (match FindBy(HypothesisKey, m.hypotheses, k.id)
      case Some(h) => h.questionIds case None => [])
    case TimelineKind => (match FindBy(TimelineEventKey, m.timeline, k.id)
      case Some(t) => t.questionIds case None => [])
    case GapKind => (match FindBy(GapKey, m.gaps, k.id)
      case Some(g) => g.relatedQuestionIds case None => [])
    case _ => []
  }

  function HypothesisRefs(m: ManifestData, k: Key): seq<Id> {
    match k.kind
    case RelationKind => (match FindBy(RelationKey, m.relations, k.id)
      case Some(r) => [r.sourceHypothesisId, r.targetHypothesisId] case None => [])
    case TimelineKind => (match FindBy(TimelineEventKey, m.timeline, k.id)
      case Some(t) => t.hypothesisIds case None => [])
    case GapKind => (match FindBy(GapKey, m.gaps, k.id)
      case Some(g) => g.relatedHypothesisIds case None => [])
    case _ => []
  }

  // Every question named by the listed hypotheses, in order.
  function QuestionsOf(m: ManifestData, hypothesisIds: seq<Id>): seq<Id> {
    if hypothesisIds == [] then []
    else QuestionRefs(m, Key(HypothesisKind, hypothesisIds[0])) + QuestionsOf(m, hypothesisIds[1..])
  }

  // tuple(dict.fromkeys(values)): first occurrences, in order.
  function StableUnique(values: seq<Id>): (r: seq<Id>)
    ensures Elems(r) == Elems(values) && Distinct(r)
  {
    if values == [] then []
    else
      var front := values[..|values| - 1];
      var last := values[|values| - 1];
      assert values == front + [last];
      DistinctSnoc(front, last);
      DistinctSnoc(StableUnique(front), last);
      assert last in front <==> last in Elems(front);
      assert last in StableUnique(front) <==> last in Elems(StableUnique(front));
      if last in front then StableUnique(front) else StableUnique(front) + [last]
  }

  // The questions an object cannot be admitted without.
  function RequiredQuestions(m: ManifestData, k: Key): seq<Id> {
    match k.kind
    case HypothesisKind => QuestionRefs(m, k)
    case TimelineKind => StableUnique(QuestionRefs(m, k) + QuestionsOf(m, HypothesisRefs(m, k)))
    case GapKind => StableUnique(QuestionRefs(m, k) + QuestionsOf(m, HypothesisRefs(m, k)))
    case _ => []
  }

  function RequiredHypotheses(m: ManifestData, k: Key): seq<Id> {
    if k.kind.TimelineKind? || k.kind.GapKind? then HypothesisRefs(m, k) else []
  }

  // The whole closure, in the order it is committed: questions, hypotheses,
  // then the object itself.
  function Needs(m: ManifestData, k: Key): seq<Key> {
    KeysOf(QuestionKind, RequiredQuestions(m, k)) + KeysOf(HypothesisKind, RequiredHypotheses(m, k)) + [k]
  }

  function EvidenceOf(m: ManifestData, keys: set<Key>): set<Id> {
    set k, e | k in keys && e in OwnEvidence(m, k) :: e
  }

  // {evidence_by_id[e].source_id for e in evidence_ids}
  function SourcesOf(m: ManifestData, evidenceIds: set<Id>): set<Id> {
    set id | id in evidenceIds && FindBy(EvidenceKey, m.evidence, id).Some?
           :: FindBy(EvidenceKey, m.evidence, id).value.sourceId
  }

  // --------------------------------------------------------------- budgets

  datatype Limits = Limits(
    maxQuestions: nat, maxLinkedHypotheses: nat, maxRelations: nat, maxTimelineEvents: nat,
    maxGaps: nat, maxEvidence: nat, maxSources: nat)

  // The field bounds of a route budget.
  type RouteBudget = b: Limits |
    b.maxQuestions <= 100 && b.maxLinkedHypotheses <= 100 && b.maxRelations <= 200 &&
    b.maxTimelineEvents <= 200 && b.maxGaps <= 100 && b.maxEvidence <= 1_000 && b.maxSources <= 200
    witness Limits(0, 0, 0, 0, 0, 0, 0)

  datatype OmissionReason =
    | QuestionBudget | HypothesisBudget | RelationBudget | TimelineBudget | GapBudget
    | EvidenceBudget | SourceBudget | ReferenceBudget

  // Would holding exactly these objects overrun the named budget?
  predicate Exceeds(m: ManifestData, b: Limits, keys: set<Key>, reason: OmissionReason) {
    match reason
    case QuestionBudget => |OfKind(keys, QuestionKind)| > b.maxQuestions
    case HypothesisBudget => |OfKind(keys, HypothesisKind)| > b.maxLinkedHypotheses
    case RelationBudget => |OfKind(keys, RelationKind)| > b.maxRelations
    case TimelineBudget => |OfKind(keys, TimelineKind)| > b.maxTimelineEvents
    case GapBudget => |OfKind(keys, GapKind)| > b.maxGaps
    case EvidenceBudget => |EvidenceOf(m, keys)| > b.maxEvidence
    case SourceBudget => |SourcesOf(m, EvidenceOf(m, keys))| > b.maxSources
    case ReferenceBudget => false
  }

  // The first budget overrun, in the order the router tests them.
  function CapacityReason(m: ManifestData, b: Limits, keys: set<Key>): Option<OmissionReason> {
    if Exceeds(m, b, keys, QuestionBudget) then Some(QuestionBudget)
    else if Exceeds(m, b, keys, HypothesisBudget) then Some(HypothesisBudget)
    else if Exceeds(m, b, keys, RelationBudget) then Some(RelationBudget)
    else if Exceeds(m, b, keys, TimelineBudget) then Some(TimelineBudget)
    else if Exceeds(m, b, keys, GapBudget) then Some(GapBudget)
    else if Exceeds(m, b, keys, EvidenceBudget) then Some(EvidenceBudget)
    else if Exceeds(m, b, keys, SourceBudget) then Some(SourceBudget)
    else None
  }

  lemma CapacityReasonExceeds(m: ManifestData, b: Limits, keys: set<Key>)
    ensures var r := CapacityReason(m, b, keys);
            (r.Some? ==> Exceeds(m, b, keys, r.value)) &&
            (r.None? ==> forall reason :: !Exceeds(m, b, keys, reason))
  {
    forall reason ensures CapacityReason(m, b, keys).None? ==> !Exceeds(m, b, keys, reason) {
      match reason
      case QuestionBudget => case HypothesisBudget => case RelationBudget => case TimelineBudget =>
      case GapBudget => case EvidenceBudget => case SourceBudget => case ReferenceBudget =>
    }
  }

  // A budget once overrun stays overrun as more is held.
  lemma ExceedsMonotone(m: ManifestData, b: Limits, small: set<Key>, large: set<Key>, reason: OmissionReason)
    requires small <= large && Exceeds(m, b, small, reason)
    ensures Exceeds(m, b, large, reason)
  {
    SubsetCount(OfKind(small, QuestionKind), OfKind(large, QuestionKind));
    SubsetCount(OfKind(small, HypothesisKind), OfKind(large, HypothesisKind));
    SubsetCount(OfKind(small, RelationKind), OfKind(large, RelationKind));
    SubsetCount(OfKind(small, TimelineKind), OfKind(large, TimelineKind));
    SubsetCount(OfKind(small, GapKind), OfKind(large, GapKind));
    assert EvidenceOf(m, small) <= EvidenceOf(m, large);
    SubsetCount(EvidenceOf(m, small), EvidenceOf(m, large));
    SubsetCount(SourcesOf(m, EvidenceOf(m, small)), SourcesOf(m, EvidenceOf(m, large)));
  }
}
