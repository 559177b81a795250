// Whole runs: the invariant holds at the end, refusals stay justified, and no
// eligible object is lost.

module RouteTheorems {
  import opened Common
  import opened AtlasModels
  import opened SemanticRoute
  import opened RouteGraph
  import opened RouteRun
  import opened RouteInvariant

  // Nothing already admitted or refused is ever taken back.
  ghost predicate Grows(s: Selection, t: Selection) {
    s.trace <= t.trace && s.omissions <= t.omissions
  }

  predicate Settled(s: Selection, k: Key) {
    k in Held(s.trace) || k in Refused(s.omissions)
  }

  // From s to t exactly the objects in keys were put to the budget.
  ghost predicate Settles(s: Selection, t: Selection, keys: set<Key>) {
    Grows(s, t) && Refused(t.omissions) <= Refused(s.omissions) + keys &&
    (forall k :: k in keys ==> Settled(t, k)) &&
    (NoMissingEndpoints(s.omissions) ==> NoMissingEndpoints(t.omissions))
  }

  lemma GrowsKeeps(s: Selection, t: Selection)
    requires Grows(s, t)
    ensures Held(s.trace) <= Held(t.trace) && Refused(s.omissions) <= Refused(t.omissions)
    ensures OfKind(Held(s.trace), HypothesisKind) <= OfKind(Held(t.trace), HypothesisKind)
  {
    forall e | e in s.trace ensures e in t.trace {
      var i :| 0 <= i < |s.trace| && s.trace[i] == e;
      assert t.trace[i] == e;
    }
    forall o | o in s.omissions ensures o in t.omissions {
      var i :| 0 <= i < |s.omissions| && s.omissions[i] == o;
      assert t.omissions[i] == o;
    }
  }

  lemma SettlesTransitive(s: Selection, t: Selection, u: Selection, a: set<Key>, b: set<Key>)
    requires Settles(s, t, a) && Settles(t, u, b)
    ensures Settles(s, u, a + b)
  {
    GrowsKeeps(t, u);
  }

  lemma BudgetReason(m: ManifestData, b: Limits, keys: set<Key>)
    ensures CapacityReason(m, b, keys) != Some(ReferenceBudget)
  {
    hide Exceeds;
  }

  lemma CommitGrows(m: ManifestData, trace: seq<TraceEntry>, k: Key, origin: Origin)
    ensures var after := Commit(trace, Needs(m, k), origin);
            trace <= after && k in Held(after) && Held(after) == Held(trace) + Elems(Needs(m, k)) &&
            (origin.FromParent? ==> SeedIds(after) == SeedIds(trace))
  {
    hide Commit, Needs, RequiredQuestions, RequiredHypotheses;
    CommitHolds(trace, Needs(m, k), origin);
    CommitAppends(trace, Needs(m, k), origin);
    NeedsElems(m, k);
    assert k in Elems(Needs(m, k));
  }

  lemma AdmitSettles(m: ManifestData, b: Limits, s: Selection, k: Key, origin: Origin)
    requires |Refused(s.omissions)| == |s.omissions|
    ensures var t := Admit(m, b, s, k, origin);
            Settles(s, t, {k}) && Held(t.trace) <= Held(s.trace) + Elems(Needs(m, k)) &&
            (origin.FromParent? ==> SeedIds(t.trace) == SeedIds(s.trace))
  {
    hide Commit, Needs, Held, CapacityReason;
    BudgetReason(m, b, Held(s.trace) + Elems(Needs(m, k)));
    match CapacityReason(m, b, Held(s.trace) + Elems(Needs(m, k)))
    case Some(reason) => OmitFacts(s.omissions, k, reason);
    case None => CommitGrows(m, s.trace, k, origin);
  }

  // ----------------------------------------------------------------- seeds

  predicate KnownCandidates(m: ManifestData, candidates: seq<Candidate>) {
    forall c :: c in candidates ==> Known(m, Key(QuestionKind, c.QuestionId()))
  }

  function CandidateKeys(candidates: seq<Candidate>): set<Key> {
    set c | c in candidates :: Key(QuestionKind, c.QuestionId())
  }

  lemma CandidateKeysCons(candidates: seq<Candidate>)
    requires candidates != []
    ensures CandidateKeys(candidates)
         == {Key(QuestionKind, candidates[0].QuestionId())} + CandidateKeys(candidates[1..])
  {
  }

  lemma QuestionNeedsItself(m: ManifestData, k: Key)
    requires k.kind == QuestionKind
    ensures Elems(Needs(m, k)) == {k}
  {
    NeedsElems(m, k);
  }

  lemma {:induction false} SeedsSettle(m: ManifestData, b: Limits, s: Selection, candidates: seq<Candidate>)
    requires References(m) && Inv(m, b, s) && NoMissingEndpoints(s.omissions) && KnownCandidates(m, candidates)
    ensures var t := AdmitSeeds(m, b, s, candidates);
            Inv(m, b, t) && Settles(s, t, CandidateKeys(candidates)) && NoMissingEndpoints(t.omissions) &&
            Held(t.trace) <= Held(s.trace) + CandidateKeys(candidates)
    decreases |candidates|
  {
    if candidates != [] {
      var c := candidates[0];
      var k := Key(QuestionKind, c.QuestionId());
      var next := Admit(m, b, s, k, SeedOrigin(c));
      AdmitKeepsInv(m, b, s, k, SeedOrigin(c));
      AdmitSettles(m, b, s, k, SeedOrigin(c));
      SeedsSettle(m, b, next, candidates[1..]);
      SettlesTransitive(s, next, AdmitSeeds(m, b, next, candidates[1..]), {k}, CandidateKeys(candidates[1..]));
      CandidateKeysCons(candidates);
      QuestionNeedsItself(m, k);
    }
  }

  // --------------------------------------------------------- linked objects

  lemma {:induction false} FirstInFinds(order: seq<Id>, wanted: set<Id>)
    ensures FirstIn(order, wanted).Some? <==> Elems(order) * wanted != {}
    ensures FirstIn(order, wanted).Some? ==> FirstIn(order, wanted).value in Elems(order) * wanted
  {
    if order != [] {
      FirstInFinds(order[1..], wanted);
      assert Elems(order) == {order[0]} + Elems(order[1..]);
      if order[0] in wanted { assert order[0] in Elems(order) * wanted; }
      if order[0] !in wanted { assert Elems(order) * wanted == Elems(order[1..]) * wanted; }
    }
  }

  // Every projection of the trace, as one entry is appended.
  lemma MirrorSnoc(trace: seq<TraceEntry>, e: TraceEntry)
    ensures Held(trace + [e]) == Held(trace) + {e.key}
    ensures OfKind(Held(trace + [e]), e.key.kind) == OfKind(Held(trace), e.key.kind) + {e.key.id}
    ensures Order(trace + [e], e.key.kind) == Order(trace, e.key.kind) + [e.key.id]
    ensures forall kind :: kind != e.key.kind ==>
              OfKind(Held(trace + [e]), kind) == OfKind(Held(trace), kind) && Order(trace + [e], kind) == Order(trace, kind)
    ensures e.origin.FromSeed? ==>
              SeedIds(trace + [e]) == SeedIds(trace) + {e.key.id} && SeedOrder(trace + [e]) == SeedOrder(trace) + [e.key.id]
    ensures e.origin.FromParent? ==>
              SeedIds(trace + [e]) == SeedIds(trace) && SeedOrder(trace + [e]) == SeedOrder(trace)
  {
    assert (trace + [e])[..|trace|] == trace;
    assert Held(trace + [e]) == Held(trace) + {e.key};
    forall kind | kind != e.key.kind ensures Order(trace + [e], kind) == Order(trace, kind) {
      assert Order(trace, kind) + [] == Order(trace, kind);
    }
    assert SeedOrder(trace) + [] == SeedOrder(trace);
  }

  lemma ElemsMaybeSnoc(s: seq<Id>, z: Id, more: bool)
    ensures Elems(s + (if more then [z] else [])) == Elems(s) + (if more then {z} else {})
  {
    if more { DistinctSnoc(s, z); } else { assert s + [] == s; }
  }

  lemma {:induction false} OrderElems(trace: seq<TraceEntry>, kind: Kind)
    ensures Elems(Order(trace, kind)) == OfKind(Held(trace), kind)
    ensures Elems(SeedOrder(trace)) == SeedIds(trace)
  {
    if trace != [] {
      var front, e := trace[..|trace| - 1], trace[|trace| - 1];
      assert trace == front + [e];
      OrderElems(front, kind);
      MirrorSnoc(front, e);
      ElemsMaybeSnoc(Order(front, kind), e.key.id, e.key.kind == kind);
      ElemsMaybeSnoc(SeedOrder(front), e.key.id, e.origin.FromSeed?);
    }
  }

  // The parent lookups never fail on an eligible object, and find an object
  // that is already in the trace.
  lemma ParentIsHeld(m: ManifestData, trace: seq<TraceEntry>, k: Key, linked: set<Id>)
    requires SeedsAreQuestions(trace) && linked <= OfKind(Held(trace), HypothesisKind)
    requires Eligible(m, SeedIds(trace), linked, k)
    ensures LinkedParent(m, trace, k, linked).Some?
    ensures LinkedParent(m, trace, k, linked).value in Held(trace)
  {
    OrderElems(trace, HypothesisKind);
    var questions, hypotheses := Elems(QuestionRefs(m, k)), Elems(HypothesisRefs(m, k));
    FirstInFinds(SeedOrder(trace), questions);
    FirstInFinds(Order(trace, HypothesisKind), hypotheses * linked);
    assert hypotheses * linked == OfKind(Held(trace), HypothesisKind) * (hypotheses * linked);
    forall q | q in SeedIds(trace) ensures Key(QuestionKind, q) in Held(trace) {
      var e :| e in trace && e.origin.FromSeed? && e.key.id == q;
      assert e.key == Key(QuestionKind, q);
    }
  }

  predicate LinkableWork(m: ManifestData, seeds: set<Id>, linked: set<Id>, work: seq<Key>) {
    forall k :: k in work ==> Known(m, k) && k.kind != RelationKind && Eligible(m, seeds, linked, k)
  }

  lemma LinkedStep(m: ManifestData, b: Limits, s: Selection, k: Key, linked: set<Id>)
    requires References(m) && Inv(m, b, s) && NoMissingEndpoints(s.omissions)
    requires linked <= OfKind(Held(s.trace), HypothesisKind)
    requires Known(m, k) && k.kind != RelationKind && Eligible(m, SeedIds(s.trace), linked, k)
    ensures var t := AdmitLinked(m, b, s, k, linked);
            Inv(m, b, t) && Settles(s, t, {k}) && SeedIds(t.trace) == SeedIds(s.trace)
  {
    var parent := LinkedParent(m, s.trace, k, linked);
    ParentIsHeld(m, s.trace, k, linked);
    AdmitKeepsInv(m, b, s, k, FromParent(parent.value));
    AdmitSettles(m, b, s, k, FromParent(parent.value));
  }

  lemma {:induction false} WorkSettles(m: ManifestData, b: Limits, s: Selection, work: seq<Key>, linked: set<Id>)
    requires References(m) && Inv(m, b, s) && NoMissingEndpoints(s.omissions)
    requires linked <= OfKind(Held(s.trace), HypothesisKind)
    requires LinkableWork(m, SeedIds(s.trace), linked, work)
    ensures var t := AdmitAll(m, b, s, work, linked);
            Inv(m, b, t) && Settles(s, t, Elems(work)) && NoMissingEndpoints(t.omissions) &&
            SeedIds(t.trace) == SeedIds(s.trace)
    decreases |work|
  {
    if work == [] {
      assert Elems(work) == {};
    } else {
      var next := AdmitLinked(m, b, s, work[0], linked);
      LinkedStep(m, b, s, work[0], linked);
      GrowsKeeps(s, next);
      WorkSettles(m, b, next, work[1..], linked);
      SettlesTransitive(s, next, AdmitAll(m, b, next, work[1..], linked), {work[0]}, Elems(work[1..]));
      ElemsCons(work);
    }
  }

  lemma WorkElems(m: ManifestData, kind: Kind, seeds: set<Id>, linked: set<Id>)
    ensures forall k :: k in Work(m, kind, seeds, linked) <==>
      k.kind == kind && Known(m, k) && Eligible(m, seeds, linked, k)
  {
    ListedElems(m, kind);
  }

  lemma ListedElems(m: ManifestData, kind: Kind)
    ensures forall k :: k in Listed(m, kind) <==> k.kind == kind && Known(m, k)
  {
    MapElems(QuestionKey, m.questions);
    MapElems(HypothesisKey, m.hypotheses);
    MapElems(RelationKey, m.relations);
    MapElems(TimelineEventKey, m.timeline);
    MapElems(GapKey, m.gaps);
    KeysOfElems(kind, Map(QuestionKey, m.questions));
    KeysOfElems(kind, Map(HypothesisKey, m.hypotheses));
    KeysOfElems(kind, Map(RelationKey, m.relations));
    KeysOfElems(kind, Map(TimelineEventKey, m.timeline));
    KeysOfElems(kind, Map(GapKey, m.gaps));
    forall k: Key | k.kind == kind ensures k in Listed(m, kind) <==> Known(m, k) {
      match kind
      case QuestionKind => assert k.id in Map(QuestionKey, m.questions) <==> k.id in Elems(Map(QuestionKey, m.questions));
      case HypothesisKind => assert k.id in Map(HypothesisKey, m.hypotheses) <==> k.id in Elems(Map(HypothesisKey, m.hypotheses));
      case RelationKind => assert k.id in Map(RelationKey, m.relations) <==> k.id in Elems(Map(RelationKey, m.relations));
      case TimelineKind => assert k.id in Map(TimelineEventKey, m.timeline) <==> k.id in Elems(Map(TimelineEventKey, m.timeline));
      case GapKind => assert k.id in Map(GapKey, m.gaps) <==> k.id in Elems(Map(GapKey, m.gaps));
    }
  }

  // -------------------------------------------------------------- relations

  predicate Touches(m: ManifestData, hypotheses: set<Id>, k: Key) {
    k.kind == RelationKind && Known(m, k) && Elems(HypothesisRefs(m, k)) * hypotheses != {}
  }

  lemma MissingEndpointKeepsInv(m: ManifestData, b: Limits, s: Selection, k: Key)
    requires Inv(m, b, s) && Known(m, k) && k.kind == RelationKind && !Endpoints(m, Held(s.trace), k)
    ensures Inv(m, b, s.(omissions := Omit(s.omissions, k, ReferenceBudget)))
  {
    OmitFacts(s.omissions, k, ReferenceBudget);
  }

  lemma RelationKeepsInv(m: ManifestData, b: Limits, s: Selection, k: Key)
    requires References(m) && Inv(m, b, s) && Known(m, k) && k.kind == RelationKind
    ensures Inv(m, b, AdmitRelation(m, b, s, k))
  {
    var hypotheses := OfKind(Held(s.trace), HypothesisKind);
    var endpoints := Elems(HypothesisRefs(m, k));
    if endpoints * hypotheses == {} {
    } else if !(endpoints <= hypotheses) {
      MissingEndpointKeepsInv(m, b, s, k);
    } else {
      assert HypothesisRefs(m, k)[0] in endpoints;
      AdmitKeepsInv(m, b, s, k, FromParent(Key(HypothesisKind, HypothesisRefs(m, k)[0])));
    }
  }

  // Relations are put to the budget when they touch an admitted hypothesis, and
  // never bring a hypothesis in.
  lemma RelationSettles(m: ManifestData, b: Limits, s: Selection, k: Key)
    requires |Refused(s.omissions)| == |s.omissions| && Known(m, k) && k.kind == RelationKind
    ensures var t := AdmitRelation(m, b, s, k);
            var hypotheses := OfKind(Held(s.trace), HypothesisKind);
            Grows(s, t) && SeedIds(t.trace) == SeedIds(s.trace) &&
            OfKind(Held(t.trace), HypothesisKind) == hypotheses &&
            Refused(t.omissions) <= Refused(s.omissions) + (if Touches(m, hypotheses, k) then {k} else {}) &&
            (Touches(m, hypotheses, k) ==> Settled(t, k))
  {
    var hypotheses := OfKind(Held(s.trace), HypothesisKind);
    var endpoints := Elems(HypothesisRefs(m, k));
    if endpoints * hypotheses == {} {
    } else if !(endpoints <= hypotheses) {
      OmitFacts(s.omissions, k, ReferenceBudget);
    } else {
      var t := AdmitRelation(m, b, s, k);
      AdmitSettles(m, b, s, k, FromParent(Key(HypothesisKind, HypothesisRefs(m, k)[0])));
      GrowsKeeps(s, t);
      NeedsElems(m, k);
      assert OfKind(Held(t.trace), HypothesisKind) <= hypotheses;
    }
  }

  function Touching(m: ManifestData, hypotheses: set<Id>, work: seq<Key>): set<Key> {
    set k | k in work && Touches(m, hypotheses, k)
  }

  lemma {:induction false} RelationsKeepInv(m: ManifestData, b: Limits, s: Selection, work: seq<Key>)
    requires References(m) && Inv(m, b, s) && forall k :: k in work ==> Known(m, k) && k.kind == RelationKind
    ensures Inv(m, b, AdmitRelations(m, b, s, work))
    decreases |work|
  {
    if work != [] {
      RelationKeepsInv(m, b, s, work[0]);
      RelationsKeepInv(m, b, AdmitRelation(m, b, s, work[0]), work[1..]);
    }
  }

  lemma TouchingCons(m: ManifestData, hypotheses: set<Id>, work: seq<Key>)
    requires work != []
    ensures Touching(m, hypotheses, work)
         == (if Touches(m, hypotheses, work[0]) then {work[0]} else {}) + Touching(m, hypotheses, work[1..])
  {
  }

  lemma {:induction false} RelationsSettle(m: ManifestData, b: Limits, s: Selection, work: seq<Key>)
    requires References(m) && Inv(m, b, s) && forall k :: k in work ==> Known(m, k) && k.kind == RelationKind
    ensures var t := AdmitRelations(m, b, s, work);
            var hypotheses := OfKind(Held(s.trace), HypothesisKind);
            Grows(s, t) && SeedIds(t.trace) == SeedIds(s.trace) &&
            OfKind(Held(t.trace), HypothesisKind) == hypotheses &&
            Refused(t.omissions) <= Refused(s.omissions) + Touching(m, hypotheses, work) &&
            (forall k :: k in Touching(m, hypotheses, work) ==> Settled(t, k))
    decreases |work|
  {
    var hypotheses := OfKind(Held(s.trace), HypothesisKind);
    if work == [] {
    } else {
      var next := AdmitRelation(m, b, s, work[0]);
      RelationKeepsInv(m, b, s, work[0]);
      RelationSettles(m, b, s, work[0]);
      RelationsSettle(m, b, next, work[1..]);
      GrowsKeeps(next, AdmitRelations(m, b, next, work[1..]));
      TouchingCons(m, hypotheses, work);
    }
  }

  // ---------------------------------------------------------- the whole run

  lemma NothingSelectedInv(m: ManifestData, b: Limits)
    ensures Inv(m, b, NothingSelected)
  {
    assert Held([]) == {} && Refused([]) == {};
    assert OfKind({}, QuestionKind) == {} && OfKind({}, HypothesisKind) == {} && OfKind({}, RelationKind) == {};
    assert OfKind({}, TimelineKind) == {} && OfKind({}, GapKind) == {};
    assert EvidenceOf(m, {}) == {} && SourcesOf(m, {}) == {};
  }

  // The hypotheses of the first layer, read off the final state: admitted, and
  // naming an admitted seed.
  function SeedLinked(m: ManifestData, s: Selection): set<Id> {
    set h | h in OfKind(Held(s.trace), HypothesisKind) &&
            Elems(QuestionRefs(m, Key(HypothesisKind, h))) * SeedIds(s.trace) != {}
  }

  lemma {:induction false} FirstLayerHypotheses(m: ManifestData, b: Limits, s: Selection, work: seq<Key>)
    requires |Refused(s.omissions)| == |s.omissions| && forall k :: k in work ==> k.kind == HypothesisKind
    ensures forall k :: k in Held(AdmitAll(m, b, s, work, {}).trace) && k.kind == HypothesisKind ==>
              k in Held(s.trace) || k in work
    decreases |work|
  {
    if work != [] {
      var parent := LinkedParent(m, s.trace, work[0], {});
      var origin := FromParent(if parent.Some? then parent.value else work[0]);
      AdmitSettles(m, b, s, work[0], origin);
      NeedsElems(m, work[0]);
      var next := AdmitLinked(m, b, s, work[0], {});
      AdmitCounts(m, b, s, work[0], origin);
      FirstLayerHypotheses(m, b, next, work[1..]);
    }
  }

  lemma AdmitCounts(m: ManifestData, b: Limits, s: Selection, k: Key, origin: Origin)
    requires |Refused(s.omissions)| == |s.omissions|
    ensures var t := Admit(m, b, s, k, origin); |Refused(t.omissions)| == |t.omissions|
  {
    match CapacityReason(m, b, Held(s.trace) + Elems(Needs(m, k)))
    case Some(reason) => OmitFacts(s.omissions, k, reason);
    case None =>
  }

  // Everything the manifest makes eligible once the run is over.
  predicate Wanted(m: ManifestData, candidates: seq<Candidate>, s: Selection, k: Key) {
    match k.kind
    case QuestionKind => k in CandidateKeys(candidates)
    case HypothesisKind => Known(m, k) && Eligible(m, SeedIds(s.trace), {}, k)
    case RelationKind => Touches(m, OfKind(Held(s.trace), HypothesisKind), k)
    case _ => Known(m, k) && Eligible(m, SeedIds(s.trace), SeedLinked(m, s), k)
  }

  // Every wanted object is admitted or refused, and nothing else is refused.
  ghost predicate LosesNothing(m: ManifestData, candidates: seq<Candidate>, s: Selection) {
    (forall k :: Wanted(m, candidates, s, k) ==> Settled(s, k)) &&
    (forall k :: k in Refused(s.omissions) ==> Wanted(m, candidates, s, k))
  }

  lemma LayerOne(m: ManifestData, b: Limits, s: Selection)
    requires References(m) && Inv(m, b, s) && NoMissingEndpoints(s.omissions)
    ensures var first := FirstLayer(m, b, s);
            Inv(m, b, first) && NoMissingEndpoints(first.omissions) && SeedIds(first.trace) == SeedIds(s.trace) &&
            Settles(s, first, Elems(Work(m, HypothesisKind, SeedIds(s.trace), {})))
  {
    WorkElems(m, HypothesisKind, SeedIds(s.trace), {});
    WorkSettles(m, b, s, Work(m, HypothesisKind, SeedIds(s.trace), {}), {});
  }

  lemma LayerTwo(m: ManifestData, b: Limits, s: Selection, kind: Kind, seeds: set<Id>, linked: set<Id>)
    requires References(m) && Inv(m, b, s) && NoMissingEndpoints(s.omissions)
    requires kind != RelationKind && seeds == SeedIds(s.trace) && linked <= OfKind(Held(s.trace), HypothesisKind)
    ensures var t := AdmitAll(m, b, s, Work(m, kind, seeds, linked), linked);
            Inv(m, b, t) && NoMissingEndpoints(t.omissions) && SeedIds(t.trace) == seeds &&
            Settles(s, t, Elems(Work(m, kind, seeds, linked))) &&
            linked <= OfKind(Held(t.trace), HypothesisKind)
  {
    WorkElems(m, kind, seeds, linked);
    WorkSettles(m, b, s, Work(m, kind, seeds, linked), linked);
    GrowsKeeps(s, AdmitAll(m, b, s, Work(m, kind, seeds, linked), linked));
  }

  lemma ExpandKeepsInv(m: ManifestData, b: Limits, s: Selection)
    requires References(m) && Inv(m, b, s) && NoMissingEndpoints(s.omissions)
    ensures Inv(m, b, Expand(m, b, s)) && Grows(s, Expand(m, b, s)) && SeedIds(Expand(m, b, s).trace) == SeedIds(s.trace)
  {
    var seeds := SeedIds(s.trace);
    var first := FirstLayer(m, b, s);
    var linked := OfKind(Held(first.trace), HypothesisKind);
    var events := AdmitAll(m, b, first, Work(m, TimelineKind, seeds, linked), linked);
    var gaps := AdmitAll(m, b, events, Work(m, GapKind, seeds, linked), linked);
    LayerOne(m, b, s);
    LayerTwo(m, b, first, TimelineKind, seeds, linked);
    LayerTwo(m, b, events, GapKind, seeds, linked);
    ListedElems(m, RelationKind);
    RelationsKeepInv(m, b, gaps, Listed(m, RelationKind));
    RelationsSettle(m, b, gaps, Listed(m, RelationKind));
  }

  // The invariant holds at the end of every run over known candidates.
  lemma RunKeepsInv(m: ManifestData, b: Limits, candidates: seq<Candidate>)
    requires References(m) && KnownCandidates(m, candidates)
    ensures Inv(m, b, Run(m, b, candidates))
  {
    NothingSelectedInv(m, b);
    SeedsSettle(m, b, NothingSelected, candidates);
    ExpandKeepsInv(m, b, AdmitSeeds(m, b, NothingSelected, candidates));
  }

  // The worklists of the four stages together.
  function Worklists(m: ManifestData, seeds: set<Id>, linked: set<Id>, hypotheses: set<Id>): set<Key> {
    Elems(Work(m, HypothesisKind, seeds, {})) + Elems(Work(m, TimelineKind, seeds, linked)) +
    Elems(Work(m, GapKind, seeds, linked)) + Touching(m, hypotheses, Listed(m, RelationKind))
  }

  // The stages of an expansion, and what each one put to the budget.
  lemma ExpandStages(m: ManifestData, b: Limits, s: Selection)
    requires References(m) && Inv(m, b, s) && NoMissingEndpoints(s.omissions)
    ensures
      var seeds, first, t := SeedIds(s.trace), FirstLayer(m, b, s), Expand(m, b, s);
      var linked := OfKind(Held(first.trace), HypothesisKind);
      var put := Worklists(m, seeds, linked, OfKind(Held(t.trace), HypothesisKind));
      Grows(s, t) && Refused(t.omissions) <= Refused(s.omissions) + put && (forall k :: k in put ==> Settled(t, k)) &&
      Grows(first, t) && Settles(s, first, Elems(Work(m, HypothesisKind, seeds, {})))
  {
    var seeds := SeedIds(s.trace);
    var first := FirstLayer(m, b, s);
    var linked := OfKind(Held(first.trace), HypothesisKind);
    var w1, w2, w3 := Elems(Work(m, HypothesisKind, seeds, {})), Elems(Work(m, TimelineKind, seeds, linked)), Elems(Work(m, GapKind, seeds, linked));
    var events := AdmitAll(m, b, first, Work(m, TimelineKind, seeds, linked), linked);
    var gaps := AdmitAll(m, b, events, Work(m, GapKind, seeds, linked), linked);
    LayerOne(m, b, s);
    LayerTwo(m, b, first, TimelineKind, seeds, linked);
    LayerTwo(m, b, events, GapKind, seeds, linked);
    SettlesTransitive(s, first, events, w1, w2);
    SettlesTransitive(s, events, gaps, w1 + w2, w3);
    SettlesTransitive(first, events, gaps, w2, w3);
    ListedElems(m, RelationKind);
    RelationsSettle(m, b, gaps, Listed(m, RelationKind));
    GrowsKeeps(gaps, Expand(m, b, s));
  }

  // The first layer is what SeedLinked reads off the final state.
  lemma SeedLinkedIsFirstLayer(m: ManifestData, seeds: set<Id>, first: Selection, t: Selection)
    requires SeedIds(t.trace) == seeds && Held(first.trace) <= Held(t.trace)
    requires Refused(first.omissions) <= Refused(t.omissions) && Held(t.trace) !! Refused(t.omissions)
    requires forall k :: k in Held(t.trace) ==> Known(m, k)
    requires forall k :: k in Work(m, HypothesisKind, seeds, {}) ==> Settled(first, k)
    requires forall k :: k in Held(first.trace) && k.kind == HypothesisKind ==> k in Work(m, HypothesisKind, seeds, {})
    ensures SeedLinked(m, t) == OfKind(Held(first.trace), HypothesisKind)
  {
    WorkElems(m, HypothesisKind, seeds, {});
    forall h ensures h in SeedLinked(m, t) <==> Key(HypothesisKind, h) in Held(first.trace) {
      var k := Key(HypothesisKind, h);
      if k in Held(t.trace) && Eligible(m, seeds, {}, k) {
        assert k in Work(m, HypothesisKind, seeds, {});
        assert Settled(first, k);
      }
      if k in Held(first.trace) { assert Eligible(m, seeds, {}, k); }
    }
  }

  lemma LinkedIsSeedLinked(m: ManifestData, b: Limits, s: Selection)
    requires References(m) && Inv(m, b, s) && NoMissingEndpoints(s.omissions)
    requires forall k :: k in Held(s.trace) ==> k.kind == QuestionKind
    ensures SeedLinked(m, Expand(m, b, s)) == OfKind(Held(FirstLayer(m, b, s).trace), HypothesisKind)
  {
    var seeds, first, t := SeedIds(s.trace), FirstLayer(m, b, s), Expand(m, b, s);
    ExpandKeepsInv(m, b, s);
    ExpandStages(m, b, s);
    GrowsKeeps(first, t);
    WorkElems(m, HypothesisKind, seeds, {});
    FirstLayerHypotheses(m, b, s, Work(m, HypothesisKind, seeds, {}));
    SeedLinkedIsFirstLayer(m, seeds, first, t);
  }

  // Reads LosesNothing off the stages' worklists.
  lemma StagesLoseNothing(m: ManifestData, candidates: seq<Candidate>, linked: set<Id>, t: Selection)
    requires linked == SeedLinked(m, t)
    requires
      var put := CandidateKeys(candidates) +
                 Worklists(m, SeedIds(t.trace), linked, OfKind(Held(t.trace), HypothesisKind));
      Refused(t.omissions) <= put && (forall k :: k in put ==> Settled(t, k))
    ensures LosesNothing(m, candidates, t)
  {
    var seeds := SeedIds(t.trace);
    WorkElems(m, HypothesisKind, seeds, {});
    WorkElems(m, TimelineKind, seeds, linked);
    WorkElems(m, GapKind, seeds, linked);
    ListedElems(m, RelationKind);
    forall k: Key ensures Wanted(m, candidates, t, k) <==>
      k in CandidateKeys(candidates) || k in Work(m, HypothesisKind, seeds, {}) ||
      k in Work(m, TimelineKind, seeds, linked) || k in Work(m, GapKind, seeds, linked) ||
      k in Touching(m, OfKind(Held(t.trace), HypothesisKind), Listed(m, RelationKind))
    {
      match k.kind
      case QuestionKind => case HypothesisKind => case RelationKind => case TimelineKind => case GapKind =>
    }
  }

  lemma ExpandLosesNothing(m: ManifestData, b: Limits, s: Selection, candidates: seq<Candidate>)
    requires References(m) && Inv(m, b, s) && NoMissingEndpoints(s.omissions)
    requires Held(s.trace) <= CandidateKeys(candidates) && Settles(NothingSelected, s, CandidateKeys(candidates))
    ensures LosesNothing(m, candidates, Expand(m, b, s))
  {
    ExpandKeepsInv(m, b, s);
    ExpandStages(m, b, s);
    LinkedIsSeedLinked(m, b, s);
    GrowsKeeps(s, Expand(m, b, s));
    assert Refused(NothingSelected.omissions) == {};
    assert forall k :: k in CandidateKeys(candidates) ==> Settled(s, k);
    StagesLoseNothing(m, candidates, OfKind(Held(FirstLayer(m, b, s).trace), HypothesisKind), Expand(m, b, s));
  }

  // Nothing eligible is dropped silently: after any run, each candidate, each
  // hypothesis naming an admitted seed, each event or gap naming an admitted
  // seed or a first-layer hypothesis, and each relation touching an admitted
  // hypothesis is in exactly one of trace and omissions; nothing else is omitted.
  lemma RunLosesNothing(m: ManifestData, b: Limits, candidates: seq<Candidate>)
    requires References(m) && KnownCandidates(m, candidates)
    ensures LosesNothing(m, candidates, Run(m, b, candidates))
    ensures Held(Run(m, b, candidates).trace) !! Refused(Run(m, b, candidates).omissions)
  {
    var s := AdmitSeeds(m, b, NothingSelected, candidates);
    RunKeepsInv(m, b, candidates);
    NothingSelectedInv(m, b);
    SeedsSettle(m, b, NothingSelected, candidates);
    if SeedIds(s.trace) == {} {
      NoSeedsNothingWanted(m, candidates, s);
    } else {
      ExpandLosesNothing(m, b, s, candidates);
    }
  }

  lemma NoSeedsNothingWanted(m: ManifestData, candidates: seq<Candidate>, s: Selection)
    requires SeedIds(s.trace) == {} && Held(s.trace) <= CandidateKeys(candidates)
    requires Settles(NothingSelected, s, CandidateKeys(candidates))
    ensures LosesNothing(m, candidates, s)
  {
    assert OfKind(Held(s.trace), HypothesisKind) == {} && SeedLinked(m, s) == {};
    assert Refused([]) == {};
    forall k | Wanted(m, candidates, s, k) ensures k in CandidateKeys(candidates) {
      match k.kind
      case QuestionKind => case HypothesisKind => case RelationKind => case TimelineKind => case GapKind =>
    }
  }

  // A refusal is final and stays justified: at the end no refused object is
  // held, each recorded budget inequality (or missing endpoint) still holds, and
  // so no wanted object that was left out could be added to the selection.
  lemma RunIsMaximal(m: ManifestData, b: Limits, candidates: seq<Candidate>)
    requires References(m) && KnownCandidates(m, candidates)
    ensures
      var t := Run(m, b, candidates);
      var held := Held(t.trace);
      (forall o :: o in t.omissions ==> o.key !in held && Justified(m, b, held, o)) &&
      (forall k :: Wanted(m, candidates, t, k) && k !in held ==>
        CapacityReason(m, b, held + Elems(Needs(m, k))).Some? || !Endpoints(m, held, k))
  {
    var t := Run(m, b, candidates);
    RunKeepsInv(m, b, candidates);
    RunLosesNothing(m, b, candidates);
    forall o | o in t.omissions ensures o.key !in Held(t.trace) && Justified(m, b, Held(t.trace), o) {
      assert o.key in Refused(t.omissions);
    }
    forall k | k in Refused(t.omissions)
      ensures CapacityReason(m, b, Held(t.trace) + Elems(Needs(m, k))).Some? || !Endpoints(m, Held(t.trace), k)
    {
      var o :| o in t.omissions && o.key == k;
      CapacityReasonExceeds(m, b, Held(t.trace) + Elems(Needs(m, k)));
    }
  }
}
