// One bounded routing pass as a transition system over its observable state,
// the admission trace and the omission list. Everything else the router keeps
// (id sets, orders, evidence, sources) is a projection of that state.

module RouteRun {
  import opened Common
  import opened AtlasModels
  import opened SemanticRoute
  import opened RouteGraph

  datatype Origin =
    | FromSeed(channel: Channel, rank: int, semanticScore: Option<real>, lexicalScore: Option<int>)
    | FromParent(parent: Key)

  datatype Channel = SemanticChannel | LexicalChannel

  datatype TraceEntry = TraceEntry(key: Key, origin: Origin)

  datatype Omission = Omission(key: Key, reason: OmissionReason)

  datatype Selection = Selection(trace: seq<TraceEntry>, omissions: seq<Omission>)

  const NothingSelected := Selection([], [])

  function EntryKey(e: TraceEntry): Key { e.key }

  function OmissionKey(o: Omission): Key { o.key }

  function Held(trace: seq<TraceEntry>): set<Key> {
    set e | e in trace :: e.key
  }

  function Refused(omissions: seq<Omission>): set<Key> {
    set o | o in omissions :: o.key
  }

  function SeedIds(trace: seq<TraceEntry>): set<Id> {
    set e | e in trace && e.origin.FromSeed? :: e.key.id
  }

  // The order lists grow at the end, entry by entry, as the trace does.
  function SeedOrder(trace: seq<TraceEntry>): seq<Id> {
    if trace == [] then []
    else
      var e := trace[|trace| - 1];
      SeedOrder(trace[..|trace| - 1]) + (if e.origin.FromSeed? then [e.key.id] else [])
  }

  function Order(trace: seq<TraceEntry>, kind: Kind): seq<Id> {
    if trace == [] then []
    else
      var e := trace[|trace| - 1];
      Order(trace[..|trace| - 1], kind) + (if e.key.kind == kind then [e.key.id] else [])
  }

  // Every expansion entry names a parent that was admitted before it.
  predicate ParentsPrecede(trace: seq<TraceEntry>) {
    trace == [] ||
    (var front, e := trace[..|trace| - 1], trace[|trace| - 1];
     ParentsPrecede(front) && (e.origin.FromParent? ==> e.origin.parent in Held(front)))
  }

  // ------------------------------------------------------------ transitions

  // Appends whatever part of the closure is not held yet.
  function Commit(trace: seq<TraceEntry>, keys: seq<Key>, origin: Origin): seq<TraceEntry>
    decreases |keys|
  {
    if keys == [] then trace
    else if keys[0] in Held(trace) then Commit(trace, keys[1..], origin)
    else Commit(trace + [TraceEntry(keys[0], origin)], keys[1..], origin)
  }

  function Omit(omissions: seq<Omission>, k: Key, reason: OmissionReason): seq<Omission> {
    if k in Refused(omissions) then omissions else omissions + [Omission(k, reason)]
  }

  // All of the closure, or a refusal that names the first budget overrun.
  function Admit(m: ManifestData, b: Limits, s: Selection, k: Key, origin: Origin): Selection {
    match CapacityReason(m, b, Held(s.trace) + Elems(Needs(m, k)))
    case Some(reason) => s.(omissions := Omit(s.omissions, k, reason))
    case None => s.(trace := Commit(s.trace, Needs(m, k), origin))
  }

  function SeedOrigin(c: Candidate): Origin {
    match c
    case Semantic(x) => FromSeed(SemanticChannel, x.rank, Some(x.score), None)
    case Lexical(x) => FromSeed(LexicalChannel, x.rank, None, Some(x.score))
  }

  function AdmitSeeds(m: ManifestData, b: Limits, s: Selection, candidates: seq<Candidate>): Selection
    decreases |candidates|
  {
    if candidates == [] then s
    else
      var c := candidates[0];
      AdmitSeeds(m, b, Admit(m, b, s, Key(QuestionKind, c.QuestionId()), SeedOrigin(c)), candidates[1..])
  }

  function FirstIn(order: seq<Id>, wanted: set<Id>): Option<Id> {
    if order == [] then None
    else if order[0] in wanted then Some(order[0])
    else FirstIn(order[1..], wanted)
  }

  // The first seed the object names, else the first admitted linked hypothesis
  // it names.
  function LinkedParent(m: ManifestData, trace: seq<TraceEntry>, k: Key, linked: set<Id>): Option<Key> {
    match FirstIn(SeedOrder(trace), Elems(QuestionRefs(m, k)))
    case Some(q) => Some(Key(QuestionKind, q))
    case None =>
      match FirstIn(Order(trace, HypothesisKind), Elems(HypothesisRefs(m, k)) * linked)
      case Some(h) => Some(Key(HypothesisKind, h))
      case None => None
  }

  // Eligible objects name an admitted seed or a linked hypothesis.
  predicate Eligible(m: ManifestData, seeds: set<Id>, linked: set<Id>, k: Key) {
    Elems(QuestionRefs(m, k)) * seeds != {} || Elems(HypothesisRefs(m, k)) * linked != {}
  }

  // The fallback parent is never reached on an eligible object (ParentIsHeld).
  function AdmitLinked(m: ManifestData, b: Limits, s: Selection, k: Key, linked: set<Id>): Selection {
    var parent := LinkedParent(m, s.trace, k, linked);
    Admit(m, b, s, k, FromParent(if parent.Some? then parent.value else k))
  }

  function AdmitAll(m: ManifestData, b: Limits, s: Selection, work: seq<Key>, linked: set<Id>): Selection
    decreases |work|
  {
    if work == [] then s
    else AdmitAll(m, b, AdmitLinked(m, b, s, work[0], linked), work[1..], linked)
  }

  function AdmitRelation(m: ManifestData, b: Limits, s: Selection, k: Key): Selection {
    var endpoints := Elems(HypothesisRefs(m, k));
    var hypotheses := OfKind(Held(s.trace), HypothesisKind);
    if endpoints * hypotheses == {} then s
    else if !(endpoints <= hypotheses) then s.(omissions := Omit(s.omissions, k, ReferenceBudget))
    else Admit(m, b, s, k, FromParent(Key(HypothesisKind, HypothesisRefs(m, k)[0])))
  }

  function AdmitRelations(m: ManifestData, b: Limits, s: Selection, work: seq<Key>): Selection
    decreases |work|
  {
    if work == [] then s
    else AdmitRelations(m, b, AdmitRelation(m, b, s, work[0]), work[1..])
  }

  function Listed(m: ManifestData, kind: Kind): seq<Key> {
    match kind
    case QuestionKind => KeysOf(kind, Map(QuestionKey, m.questions))
    case HypothesisKind => KeysOf(kind, Map(HypothesisKey, m.hypotheses))
    case RelationKind => KeysOf(kind, Map(RelationKey, m.relations))
    case TimelineKind => KeysOf(kind, Map(TimelineEventKey, m.timeline))
    case GapKind => KeysOf(kind, Map(GapKey, m.gaps))
  }

  function Work(m: ManifestData, kind: Kind, seeds: set<Id>, linked: set<Id>): seq<Key> {
    Filter(k => Eligible(m, seeds, linked, k), Listed(m, kind))
  }

  function FirstLayer(m: ManifestData, b: Limits, s: Selection): Selection {
    AdmitAll(m, b, s, Work(m, HypothesisKind, SeedIds(s.trace), {}), {})
  }

  // Hypotheses, then events, gaps and relations, in manifest order.
  function Expand(m: ManifestData, b: Limits, s: Selection): Selection {
    var seeds := SeedIds(s.trace);
    var first := FirstLayer(m, b, s);
    var linked := OfKind(Held(first.trace), HypothesisKind);
    var events := AdmitAll(m, b, first, Work(m, TimelineKind, seeds, linked), linked);
    var gaps := AdmitAll(m, b, events, Work(m, GapKind, seeds, linked), linked);
    AdmitRelations(m, b, gaps, Listed(m, RelationKind))
  }

  function Run(m: ManifestData, b: Limits, candidates: seq<Candidate>): Selection {
    var s := AdmitSeeds(m, b, NothingSelected, candidates);
    if SeedIds(s.trace) == {} then s else Expand(m, b, s)
  }
}
