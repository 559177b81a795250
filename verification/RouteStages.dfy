// What the expansion loops keep from one manifest record to the next.

module RouteStages {
  import opened Common
  import opened AtlasModels
  import opened SemanticRoute
  import opened RouteGraph
  import opened RouteRun
  import opened RouteInvariant
  import opened RouteTheorems

  // The worklist of the first i records of a kind.
  function WorkUpTo(m: ManifestData, kind: Kind, seeds: set<Id>, linked: set<Id>, i: nat): seq<Key>
    requires i <= |Listed(m, kind)|
  {
    Filter(k => Eligible(m, seeds, linked, k), Listed(m, kind)[..i])
  }

  lemma WorkUpToSteps(m: ManifestData, kind: Kind, seeds: set<Id>, linked: set<Id>, i: nat)
    requires i < |Listed(m, kind)|
    ensures WorkUpTo(m, kind, seeds, linked, i + 1) ==
      if Eligible(m, seeds, linked, Listed(m, kind)[i]) then WorkUpTo(m, kind, seeds, linked, i) + [Listed(m, kind)[i]]
      else WorkUpTo(m, kind, seeds, linked, i)
  {
    var all := Listed(m, kind);
    assert all[..i + 1] == all[..i] + [all[i]];
    FilterConcat(k => Eligible(m, seeds, linked, k), all[..i], [all[i]]);
    assert WorkUpTo(m, kind, seeds, linked, i + 1)
        == WorkUpTo(m, kind, seeds, linked, i) + Filter(k => Eligible(m, seeds, linked, k), [all[i]]);
  }

  lemma WorkUpToAll(m: ManifestData, kind: Kind, seeds: set<Id>, linked: set<Id>)
    ensures WorkUpTo(m, kind, seeds, linked, |Listed(m, kind)|) == Work(m, kind, seeds, linked)
    ensures WorkUpTo(m, kind, seeds, linked, 0) == []
  {
    assert Listed(m, kind)[..|Listed(m, kind)|] == Listed(m, kind);
  }

  lemma {:induction false} AdmitAllSnoc(m: ManifestData, b: Limits, s: Selection, work: seq<Key>, k: Key, linked: set<Id>)
    ensures AdmitAll(m, b, s, work + [k], linked) == AdmitLinked(m, b, AdmitAll(m, b, s, work, linked), k, linked)
    decreases |work|
  {
    if work == [] {
      assert work + [k] == [k];
    } else {
      assert (work + [k])[1..] == work[1..] + [k];
      AdmitAllSnoc(m, b, AdmitLinked(m, b, s, work[0], linked), work[1..], k, linked);
    }
  }

  lemma {:induction false} AdmitSeedsSnoc(m: ManifestData, b: Limits, s: Selection, candidates: seq<Candidate>, c: Candidate)
    ensures AdmitSeeds(m, b, s, candidates + [c])
         == Admit(m, b, AdmitSeeds(m, b, s, candidates), Key(QuestionKind, c.QuestionId()), SeedOrigin(c))
    decreases |candidates|
  {
    if candidates == [] {
      assert candidates + [c] == [c];
    } else {
      assert (candidates + [c])[1..] == candidates[1..] + [c];
      var first := candidates[0];
      AdmitSeedsSnoc(m, b, Admit(m, b, s, Key(QuestionKind, first.QuestionId()), SeedOrigin(first)), candidates[1..], c);
    }
  }

  lemma {:induction false} AdmitRelationsSnoc(m: ManifestData, b: Limits, s: Selection, work: seq<Key>, k: Key)
    ensures AdmitRelations(m, b, s, work + [k]) == AdmitRelation(m, b, AdmitRelations(m, b, s, work), k)
    decreases |work|
  {
    if work == [] {
      assert work + [k] == [k];
    } else {
      assert (work + [k])[1..] == work[1..] + [k];
      AdmitRelationsSnoc(m, b, AdmitRelation(m, b, s, work[0]), work[1..], k);
    }
  }

  // ------------------------------------------------------------ loop facts

  ghost predicate Stage(m: ManifestData, b: Limits, s: Selection, seeds: set<Id>, linked: set<Id>) {
    Inv(m, b, s) && NoMissingEndpoints(s.omissions) && SeedIds(s.trace) == seeds &&
    linked <= OfKind(Held(s.trace), HypothesisKind)
  }

  // Of the given kind, only records already visited can be held.
  ghost predicate NotAhead(m: ManifestData, s: Selection, kind: Kind, i: nat)
    requires i <= |Listed(m, kind)|
  {
    forall k :: k in Held(s.trace) && k.kind == kind ==> k in Listed(m, kind)[..i]
  }

  lemma {:induction false} CommitHeldIsNoop(trace: seq<TraceEntry>, keys: seq<Key>, origin: Origin)
    requires Elems(keys) <= Held(trace)
    ensures Commit(trace, keys, origin) == trace
    decreases |keys|
  {
    if keys != [] {
      ElemsCons(keys);
      CommitHeldIsNoop(trace, keys[1..], origin);
    }
  }

  // Admitting what is already held changes nothing.
  lemma AdmitHeldIsNoop(m: ManifestData, b: Limits, s: Selection, k: Key, origin: Origin)
    requires Inv(m, b, s) && k in Held(s.trace)
    ensures Admit(m, b, s, k, origin) == s
  {
    assert Held(s.trace) + Elems(Needs(m, k)) == Held(s.trace);
    CommitHeldIsNoop(s.trace, Needs(m, k), origin);
  }

  // What one admission needs, and what it leaves for the next.
  lemma StageStep(m: ManifestData, b: Limits, s: Selection, seeds: set<Id>, linked: set<Id>, k: Key)
    requires References(m) && Stage(m, b, s, seeds, linked)
    requires Known(m, k) && k.kind != RelationKind && Eligible(m, seeds, linked, k)
    ensures Stage(m, b, AdmitLinked(m, b, s, k, linked), seeds, linked)
    ensures LinkedParent(m, s.trace, k, linked).Some?
    ensures k in Held(s.trace) ==> AdmitLinked(m, b, s, k, linked) == s
    ensures CapacityReason(m, b, Held(s.trace) + Elems(Needs(m, k))) == None ==> Elems(Needs(m, k)) !! Refused(s.omissions)
    ensures forall j :: j in Held(AdmitLinked(m, b, s, k, linked).trace) ==>
              j in Held(s.trace) || j == k || j.kind == QuestionKind || j.kind == HypothesisKind
  {
    var parent := LinkedParent(m, s.trace, k, linked);
    ParentIsHeld(m, s.trace, k, linked);
    LinkedStep(m, b, s, k, linked);
    GrowsKeeps(s, AdmitLinked(m, b, s, k, linked));
    AdmitSettles(m, b, s, k, FromParent(parent.value));
    NeedsElems(m, k);
    if k in Held(s.trace) { AdmitHeldIsNoop(m, b, s, k, FromParent(parent.value)); }
    if CapacityReason(m, b, Held(s.trace) + Elems(Needs(m, k))) == None {
      CommitKeepsInv(m, b, s, k, FromParent(parent.value));
    }
  }

  // Records come with distinct IDs, so the next one is not held yet.
  lemma NextIsFresh(m: ManifestData, s: Selection, kind: Kind, i: nat)
    requires UniqueIds(m) && i < |Listed(m, kind)| && NotAhead(m, s, kind, i)
    ensures Listed(m, kind)[i] !in Held(s.trace)
  {
    var all := Listed(m, kind);
    ListedKind(m, kind, i);
    if all[i] in all[..i] {
      var j :| 0 <= j < i && all[..i][j] == all[i];
      ListedDistinct(m, kind, j, i);
    }
  }

  function IdsOf(m: ManifestData, kind: Kind): seq<Id> {
    match kind
    case QuestionKind => Map(QuestionKey, m.questions)
    case HypothesisKind => Map(HypothesisKey, m.hypotheses)
    case RelationKind => Map(RelationKey, m.relations)
    case TimelineKind => Map(TimelineEventKey, m.timeline)
    case GapKind => Map(GapKey, m.gaps)
  }

  lemma ListedKind(m: ManifestData, kind: Kind, i: nat)
    requires i < |Listed(m, kind)|
    ensures |IdsOf(m, kind)| == |Listed(m, kind)| && Listed(m, kind)[i] == Key(kind, IdsOf(m, kind)[i])
  {
  }

  lemma ListedDistinct(m: ManifestData, kind: Kind, i: nat, j: nat)
    requires UniqueIds(m) && i < j < |Listed(m, kind)|
    ensures Listed(m, kind)[i] != Listed(m, kind)[j]
  {
    ListedKind(m, kind, i);
    ListedKind(m, kind, j);
    DistinctIndices(IdsOf(m, kind));
  }

  lemma Visited(m: ManifestData, s: Selection, t: Selection, kind: Kind, i: nat)
    requires i < |Listed(m, kind)| && NotAhead(m, s, kind, i)
    requires forall j :: j in Held(t.trace) && j.kind == kind ==> j in Held(s.trace) || j == Listed(m, kind)[i]
    ensures NotAhead(m, t, kind, i + 1)
  {
    var all := Listed(m, kind);
    assert all[..i + 1] == all[..i] + [all[i]];
  }

  lemma AdmitNothing(m: ManifestData, b: Limits, s: Selection, linked: set<Id>)
    ensures AdmitAll(m, b, s, [], linked) == s && AdmitRelations(m, b, s, []) == s
  {
  }

  // ------------------------------------- records as the keys they are listed by

  lemma ListedLengths(m: ManifestData)
    ensures |Listed(m, HypothesisKind)| == |m.hypotheses| && |Listed(m, TimelineKind)| == |m.timeline|
    ensures |Listed(m, GapKind)| == |m.gaps| && |Listed(m, RelationKind)| == |m.relations|
  {
  }

  lemma HypothesisRecord(m: ManifestData, i: nat)
    requires UniqueIds(m) && i < |m.hypotheses|
    ensures |Listed(m, HypothesisKind)| == |m.hypotheses|
    ensures var k := Listed(m, HypothesisKind)[i];
            k == Key(HypothesisKind, m.hypotheses[i].hypothesisId) && Known(m, k) &&
            QuestionRefs(m, k) == m.hypotheses[i].questionIds && HypothesisRefs(m, k) == []
  {
    FindByKey(HypothesisKey, m.hypotheses, m.hypotheses[i]);
  }

  lemma EventRecord(m: ManifestData, i: nat)
    requires UniqueIds(m) && i < |m.timeline|
    ensures |Listed(m, TimelineKind)| == |m.timeline|
    ensures var k := Listed(m, TimelineKind)[i];
            k == Key(TimelineKind, m.timeline[i].eventId) && Known(m, k) &&
            QuestionRefs(m, k) == m.timeline[i].questionIds && HypothesisRefs(m, k) == m.timeline[i].hypothesisIds
  {
    FindByKey(TimelineEventKey, m.timeline, m.timeline[i]);
  }

  lemma GapRecord(m: ManifestData, i: nat)
    requires UniqueIds(m) && i < |m.gaps|
    ensures |Listed(m, GapKind)| == |m.gaps|
    ensures var k := Listed(m, GapKind)[i];
            k == Key(GapKind, m.gaps[i].gapId) && Known(m, k) &&
            QuestionRefs(m, k) == m.gaps[i].relatedQuestionIds && HypothesisRefs(m, k) == m.gaps[i].relatedHypothesisIds
  {
    FindByKey(GapKey, m.gaps, m.gaps[i]);
  }

  lemma RelationRecord(m: ManifestData, i: nat)
    requires UniqueIds(m) && i < |m.relations|
    ensures |Listed(m, RelationKind)| == |m.relations|
    ensures var k, r := Listed(m, RelationKind)[i], m.relations[i];
            k == Key(RelationKind, r.relationId) && Known(m, k) &&
            HypothesisRefs(m, k) == [r.sourceHypothesisId, r.targetHypothesisId]
  {
    FindByKey(RelationKey, m.relations, m.relations[i]);
  }

  // Objects of any other expansion kind stay as they were.
  ghost predicate KindsKept(before: seq<TraceEntry>, after: seq<TraceEntry>, kind: Kind) {
    forall k :: k in Held(after) && k.kind != kind && k.kind != QuestionKind && k.kind != HypothesisKind ==> k in Held(before)
  }

  lemma KindsKeptReflexive(trace: seq<TraceEntry>, kind: Kind)
    ensures KindsKept(trace, trace, kind)
  {
  }

  lemma KindsKeptStep(a: seq<TraceEntry>, b: seq<TraceEntry>, c: seq<TraceEntry>, kind: Kind)
    requires KindsKept(a, b, kind) && KindsKept(b, c, kind)
    ensures KindsKept(a, c, kind)
  {
  }

  ghost predicate Lacks(trace: seq<TraceEntry>, kind: Kind) {
    forall k :: k in Held(trace) ==> k.kind != kind
  }

  lemma LacksKept(a: seq<TraceEntry>, b: seq<TraceEntry>, kind: Kind)
    requires KindsKept(a, b, kind)
    ensures forall other :: other != kind && other != QuestionKind && other != HypothesisKind && Lacks(a, other) ==> Lacks(b, other)
  {
  }

  lemma LacksIsBehind(m: ManifestData, s: Selection, kind: Kind)
    requires Lacks(s.trace, kind)
    ensures NotAhead(m, s, kind, 0)
  {
  }

  lemma AheadMoves(m: ManifestData, s: Selection, kind: Kind, i: nat)
    requires i < |Listed(m, kind)| && NotAhead(m, s, kind, i)
    ensures NotAhead(m, s, kind, i + 1)
  {
    Visited(m, s, s, kind, i);
  }

  lemma LinkedMoves(m: ManifestData, b: Limits, s: Selection, k: Key, linked: set<Id>, i: nat)
    requires i < |Listed(m, k.kind)| && Listed(m, k.kind)[i] == k && NotAhead(m, s, k.kind, i)
    requires k.kind == TimelineKind || k.kind == GapKind
    requires forall j :: j in Held(AdmitLinked(m, b, s, k, linked).trace) ==>
               j in Held(s.trace) || j == k || j.kind == QuestionKind || j.kind == HypothesisKind
    ensures NotAhead(m, AdmitLinked(m, b, s, k, linked), k.kind, i + 1)
    ensures KindsKept(s.trace, AdmitLinked(m, b, s, k, linked).trace, k.kind)
  {
    Visited(m, s, AdmitLinked(m, b, s, k, linked), k.kind, i);
  }

  lemma RelationCases(m: ManifestData, b: Limits, s: Selection, k: Key)
    ensures
      var endpoints, hypotheses := Elems(HypothesisRefs(m, k)), OfKind(Held(s.trace), HypothesisKind);
      AdmitRelation(m, b, s, k) ==
        if endpoints * hypotheses == {} then s
        else if !(endpoints <= hypotheses) then Selection(s.trace, Omit(s.omissions, k, ReferenceBudget))
        else Admit(m, b, s, k, FromParent(Key(HypothesisKind, HypothesisRefs(m, k)[0])))
  {
  }

  // Putting a relation to the budget admits that relation or nothing.
  lemma RelationHolds(m: ManifestData, b: Limits, s: Selection, k: Key)
    requires |Refused(s.omissions)| == |s.omissions| && k.kind == RelationKind
    ensures Held(AdmitRelation(m, b, s, k).trace) <= Held(s.trace) + {k}
  {
    hide Held, AdmitRelation, Admit, OfKind, HypothesisRefs;
    RelationCases(m, b, s, k);
    if Elems(HypothesisRefs(m, k)) != {} {
      AdmitSettles(m, b, s, k, FromParent(Key(HypothesisKind, HypothesisRefs(m, k)[0])));
    }
    NeedsElems(m, k);
  }

  lemma RelationMoves(m: ManifestData, b: Limits, s: Selection, k: Key, i: nat)
    requires References(m) && Inv(m, b, s) && Known(m, k) && k.kind == RelationKind
    requires i < |Listed(m, RelationKind)| && Listed(m, RelationKind)[i] == k && NotAhead(m, s, RelationKind, i)
    ensures NotAhead(m, AdmitRelation(m, b, s, k), RelationKind, i + 1) && Inv(m, b, AdmitRelation(m, b, s, k))
  {
    hide References, Known, NotAhead, AdmitRelation, Held, Listed;
    RelationKeepsInv(m, b, s, k);
    assert |Refused(s.omissions)| == |s.omissions|;
    RelationHolds(m, b, s, k);
    Visited(m, s, AdmitRelation(m, b, s, k), RelationKind, i);
  }

  lemma ListedSnoc(m: ManifestData, kind: Kind, i: nat)
    requires i < |Listed(m, kind)|
    ensures Listed(m, kind)[..i + 1] == Listed(m, kind)[..i] + [Listed(m, kind)[i]]
  {
  }

  lemma HypothesisMoves(m: ManifestData, b: Limits, s: Selection, k: Key)
    requires k.kind == HypothesisKind
    requires forall j :: j in Held(AdmitLinked(m, b, s, k, {}).trace) ==>
               j in Held(s.trace) || j == k || j.kind == QuestionKind || j.kind == HypothesisKind
    ensures KindsKept(s.trace, AdmitLinked(m, b, s, k, {}).trace, HypothesisKind)
  {
  }
}
