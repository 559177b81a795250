// The order of a run's admissions: stage by stage, and within a stage as the
// manifest lists its records.

module RouteOrder {
  import opened Common
  import opened AtlasModels
  import opened SemanticRoute
  import opened RouteGraph
  import opened RouteRun
  import opened RouteInvariant
  import opened RouteTheorems
  import opened RouteRecords
  import opened RouteTrace
  import opened RouteParents

  // One key is listed before another.
  ghost predicate ListedBefore(keys: seq<Key>, x: Key, y: Key) {
    exists i, j :: 0 <= i < j < |keys| && keys[i] == x && keys[j] == y
  }

  // The trace's entries of a kind come in the order of the list.
  ghost predicate FollowsList(trace: seq<TraceEntry>, kind: Kind, keys: seq<Key>) {
    (forall a :: 0 <= a < |trace| && trace[a].key.kind == kind ==> trace[a].key in keys) &&
    forall a, b :: 0 <= a < b < |trace| && trace[a].key.kind == kind && trace[b].key.kind == kind ==>
      ListedBefore(keys, trace[a].key, trace[b].key)
  }

  lemma ListedLonger(keys: seq<Key>, more: seq<Key>, x: Key, y: Key)
    requires ListedBefore(keys, x, y)
    ensures ListedBefore(keys + more, x, y)
  {
    var i, j :| 0 <= i < j < |keys| && keys[i] == x && keys[j] == y;
    assert (keys + more)[i] == x && (keys + more)[j] == y;
  }

  lemma ListedLast(keys: seq<Key>, k: Key, x: Key)
    requires x in keys
    ensures ListedBefore(keys + [k], x, k)
  {
    var i :| 0 <= i < |keys| && keys[i] == x;
    assert (keys + [k])[i] == x && (keys + [k])[|keys|] == k;
  }

  lemma NoTwice(trace: seq<TraceEntry>, a: nat, b: nat)
    requires |Held(trace)| == |trace| && a < b < |trace|
    ensures trace[a].key != trace[b].key
  {
    var keys := Map(EntryKey, trace);
    assert Elems(keys) == Held(trace) by { MapElems(EntryKey, trace); }
    DistinctIndices(keys);
    assert keys[a] != keys[b];
  }

  // A step that adds at most the next key of the list.
  lemma FollowsNext(s: seq<TraceEntry>, t: seq<TraceEntry>, kind: Kind, keys: seq<Key>, k: Key)
    requires s <= t && |Held(t)| == |t| && FollowsList(s, kind, keys)
    requires forall a :: |s| <= a < |t| && t[a].key.kind == kind ==> t[a].key == k
    ensures FollowsList(t, kind, keys + [k])
  {
    hide Held;
    forall a | 0 <= a < |s| ensures s[a] == t[a] {}
    forall a, b | 0 <= a < b < |t| && t[a].key.kind == kind && t[b].key.kind == kind
      ensures ListedBefore(keys + [k], t[a].key, t[b].key)
    {
      if b < |s| {
        ListedLonger(keys, [k], t[a].key, t[b].key);
      } else {
        NoTwice(t, a, b);
        ListedLast(keys, k, t[a].key);
      }
    }
  }

  lemma LinkedAdds(m: ManifestData, b: Limits, s: Selection, k: Key, linked: set<Id>)
    requires |Held(s.trace)| == |s.trace|
    ensures
      var t := AdmitLinked(m, b, s, k, linked);
      s.trace <= t.trace && |Held(t.trace)| == |t.trace| &&
      forall a :: |s.trace| <= a < |t.trace| && t.trace[a].key.kind != QuestionKind && t.trace[a].key.kind != HypothesisKind ==> t.trace[a].key == k
  {
    var parent := LinkedParent(m, s.trace, k, linked);
    var origin := FromParent(if parent.Some? then parent.value else k);
    hide LinkedParent, CapacityReason, Held;
    CommitHolds(s.trace, Needs(m, k), origin);
    NeedsElems(m, k);
    CommitTail(s.trace, Needs(m, k), origin);
    hide Needs;
  }

  lemma {:induction false} CommitTail(trace: seq<TraceEntry>, keys: seq<Key>, origin: Origin)
    ensures var t := Commit(trace, keys, origin); trace <= t && forall a :: |trace| <= a < |t| ==> t[a].key in keys
    decreases |keys|
  {
    hide Held;
    if keys != [] {
      if keys[0] in Held(trace) {
        CommitTail(trace, keys[1..], origin);
      } else {
        CommitTail(trace + [TraceEntry(keys[0], origin)], keys[1..], origin);
      }
    }
  }

  lemma AdmitAllStep(m: ManifestData, b: Limits, s: Selection, work: seq<Key>, linked: set<Id>)
    requires work != []
    ensures AdmitAll(m, b, s, work, linked) == AdmitAll(m, b, AdmitLinked(m, b, s, work[0], linked), work[1..], linked)
  {
    hide AdmitLinked;
  }

  lemma Regrouped(done: seq<Key>, work: seq<Key>)
    ensures work == [] ==> done + work == done
    ensures work != [] ==> done + [work[0]] + work[1..] == done + work
  {
  }

  lemma {:induction false} WorkFollows(m: ManifestData, b: Limits, s: Selection, work: seq<Key>, linked: set<Id>, kind: Kind, done: seq<Key>)
    requires |Held(s.trace)| == |s.trace| && kind != QuestionKind && kind != HypothesisKind && FollowsList(s.trace, kind, done)
    ensures var t := AdmitAll(m, b, s, work, linked); |Held(t.trace)| == |t.trace| && FollowsList(t.trace, kind, done + work)
    decreases |work|
  {
    Regrouped(done, work);
    if work != [] {
      hide *;
      var next := AdmitLinked(m, b, s, work[0], linked);
      LinkedAdds(m, b, s, work[0], linked);
      FollowsNext(s.trace, next.trace, kind, done, work[0]);
      WorkFollows(m, b, next, work[1..], linked, kind, done + [work[0]]);
      AdmitAllStep(m, b, s, work, linked);
    }
  }

  lemma {:induction false} RelationsFollow(m: ManifestData, b: Limits, s: Selection, work: seq<Key>, done: seq<Key>)
    requires |Held(s.trace)| == |s.trace| && FollowsList(s.trace, RelationKind, done) && forall k :: k in work ==> k.kind == RelationKind
    ensures FollowsList(AdmitRelations(m, b, s, work).trace, RelationKind, done + work)
    decreases |work|
  {
    Regrouped(done, work);
    if work != [] {
      hide *;
      var next := AdmitRelation(m, b, s, work[0]);
      RelationAdds(m, b, s, work[0]);
      FollowsNext(s.trace, next.trace, RelationKind, done, work[0]);
      RelationsFollow(m, b, next, work[1..], done + [work[0]]);
      RelationsStep(m, b, s, work);
    }
  }

  lemma AdmitKeepsCount(m: ManifestData, b: Limits, s: Selection, k: Key, origin: Origin)
    requires |Held(s.trace)| == |s.trace|
    ensures var t := Admit(m, b, s, k, origin); s.trace <= t.trace && |Held(t.trace)| == |t.trace|
  {
    hide Needs, CapacityReason, Held;
    CommitHolds(s.trace, Needs(m, k), origin);
  }

  lemma RelationCounts(m: ManifestData, b: Limits, s: Selection, k: Key)
    requires |Held(s.trace)| == |s.trace|
    ensures var t := AdmitRelation(m, b, s, k); s.trace <= t.trace && |Held(t.trace)| == |t.trace|
  {
    hide Admit, HypothesisRefs, Held, OfKind;
    if |HypothesisRefs(m, k)| > 0 { AdmitKeepsCount(m, b, s, k, FromParent(Key(HypothesisKind, HypothesisRefs(m, k)[0]))); }
  }

  lemma RelationsStep(m: ManifestData, b: Limits, s: Selection, work: seq<Key>)
    requires work != []
    ensures AdmitRelations(m, b, s, work) == AdmitRelations(m, b, AdmitRelation(m, b, s, work[0]), work[1..])
  {
    hide AdmitRelation;
  }

  lemma RelationAdds(m: ManifestData, b: Limits, s: Selection, k: Key)
    requires |Held(s.trace)| == |s.trace| && k.kind == RelationKind
    ensures
      var t := AdmitRelation(m, b, s, k);
      s.trace <= t.trace && |Held(t.trace)| == |t.trace| && forall a :: |s.trace| <= a < |t.trace| ==> t.trace[a].key == k
  {
    hide *;
    var t := AdmitRelation(m, b, s, k);
    RelationCounts(m, b, s, k);
    RelationEntries(m, b, s, k);
    forall a | |s.trace| <= a < |t.trace| ensures t.trace[a].key == k {
      if t.trace[a] in s.trace {
        var i :| 0 <= i < |s.trace| && s.trace[i] == t.trace[a];
        NoTwice(t.trace, i, a);
      }
    }
  }

  // ------------------------------------------------------------- manifest order

  lemma {:induction false} FilteredBefore(p: Key -> bool, keys: seq<Key>, x: Key, y: Key)
    requires ListedBefore(Filter(p, keys), x, y)
    ensures ListedBefore(keys, x, y)
  {
    var kept := Filter(p, keys);
    var i, j :| 0 <= i < j < |kept| && kept[i] == x && kept[j] == y;
    var rest := Filter(p, keys[1..]);
    if p(keys[0]) && i == 0 {
      assert rest[j - 1] == y && y in rest;
      var n :| 0 <= n < |keys| - 1 && keys[1..][n] == y;
      assert keys[n + 1] == y;
    } else {
      var d := if p(keys[0]) then 1 else 0;
      assert rest[i - d] == x && rest[j - d] == y;
      FilteredBefore(p, keys[1..], x, y);
      var u, v :| 0 <= u < v < |keys| - 1 && keys[1..][u] == x && keys[1..][v] == y;
      assert keys[u + 1] == x && keys[v + 1] == y;
    }
  }

  // As the manifest lists the events.
  ghost predicate EventsBefore(m: ManifestData, x: Id, y: Id) {
    exists i, j :: 0 <= i < j < |m.timeline| && m.timeline[i].eventId == x && m.timeline[j].eventId == y
  }

  ghost predicate GapsBefore(m: ManifestData, x: Id, y: Id) {
    exists i, j :: 0 <= i < j < |m.gaps| && m.gaps[i].gapId == x && m.gaps[j].gapId == y
  }

  ghost predicate RelationsBefore(m: ManifestData, x: Id, y: Id) {
    exists i, j :: 0 <= i < j < |m.relations| && m.relations[i].relationId == x && m.relations[j].relationId == y
  }

  lemma ListedByRecord(m: ManifestData, x: Key, y: Key)
    requires x.kind == y.kind && ListedBefore(Listed(m, x.kind), x, y)
    ensures x.kind == TimelineKind ==> EventsBefore(m, x.id, y.id)
    ensures x.kind == GapKind ==> GapsBefore(m, x.id, y.id)
    ensures x.kind == RelationKind ==> RelationsBefore(m, x.id, y.id)
  {
    var keys := Listed(m, x.kind);
    var i, j :| 0 <= i < j < |keys| && keys[i] == x && keys[j] == y;
    match x.kind
    case TimelineKind => assert m.timeline[i].eventId == x.id && m.timeline[j].eventId == y.id;
    case GapKind => assert m.gaps[i].gapId == x.id && m.gaps[j].gapId == y.id;
    case RelationKind => assert m.relations[i].relationId == x.id && m.relations[j].relationId == y.id;
    case _ =>
  }

  // -------------------------------------------------------------- the whole run

  lemma NothingFollows(trace: seq<TraceEntry>, held: set<Kind>, kind: Kind)
    requires OnlyKinds(trace, held) && kind !in held
    ensures FollowsList(trace, kind, [])
  {
  }

  lemma FollowsManifest(m: ManifestData, trace: seq<TraceEntry>, kind: Kind, seeds: set<Id>, linked: set<Id>)
    requires FollowsList(trace, kind, [] + Work(m, kind, seeds, linked))
    ensures FollowsList(trace, kind, Listed(m, kind))
  {
    var work, p := Work(m, kind, seeds, linked), k => Eligible(m, seeds, linked, k);
    assert [] + work == work && work == Filter(p, Listed(m, kind));
    hide ListedBefore, Eligible, Listed, Work;
    forall a, b | 0 <= a < b < |trace| && trace[a].key.kind == kind && trace[b].key.kind == kind
      ensures ListedBefore(Listed(m, kind), trace[a].key, trace[b].key)
    {
      FilteredBefore(p, Listed(m, kind), trace[a].key, trace[b].key);
    }
  }

  lemma FollowsOn(s: seq<TraceEntry>, t: seq<TraceEntry>, kind: Kind, keys: seq<Key>)
    requires s <= t && FollowsList(s, kind, keys) && forall a :: |s| <= a < |t| ==> t[a].key.kind != kind
    ensures FollowsList(t, kind, keys)
  {
    hide ListedBefore;
    forall a | 0 <= a < |s| ensures s[a] == t[a] {}
  }

  // What a stage adds behind a trace.
  ghost predicate TailKinds(s: seq<TraceEntry>, t: seq<TraceEntry>, kinds: set<Kind>) {
    s <= t && forall a :: |s| <= a < |t| ==> t[a].key.kind in kinds
  }

  lemma TailChain(a: seq<TraceEntry>, b: seq<TraceEntry>, c: seq<TraceEntry>, kinds: set<Kind>)
    requires TailKinds(a, b, kinds) && TailKinds(b, c, kinds)
    ensures TailKinds(a, c, kinds)
  {
    forall i | |a| <= i < |b| ensures c[i] == b[i] {}
  }

  lemma LinkedTail(m: ManifestData, b: Limits, s: Selection, k: Key, linked: set<Id>, kind: Kind)
    requires |Held(s.trace)| == |s.trace| && k.kind == kind
    ensures var t := AdmitLinked(m, b, s, k, linked);
            TailKinds(s.trace, t.trace, {QuestionKind, HypothesisKind, kind}) && |Held(t.trace)| == |t.trace|
  {
    hide AdmitLinked, Held;
    LinkedAdds(m, b, s, k, linked);
  }

  lemma {:induction false} WorkTail(m: ManifestData, b: Limits, s: Selection, work: seq<Key>, linked: set<Id>, kind: Kind)
    requires |Held(s.trace)| == |s.trace| && forall k :: k in work ==> k.kind == kind
    ensures var t := AdmitAll(m, b, s, work, linked);
            TailKinds(s.trace, t.trace, {QuestionKind, HypothesisKind, kind}) && |Held(t.trace)| == |t.trace|
    decreases |work|
  {
    if work != [] {
      hide *;
      var next := AdmitLinked(m, b, s, work[0], linked);
      LinkedTail(m, b, s, work[0], linked, kind);
      WorkTail(m, b, next, work[1..], linked, kind);
      AdmitAllStep(m, b, s, work, linked);
      TailChain(s.trace, next.trace, AdmitAll(m, b, s, work, linked).trace, {QuestionKind, HypothesisKind, kind});
    }
  }

  lemma RelationOneTail(m: ManifestData, b: Limits, s: Selection, k: Key)
    requires |Held(s.trace)| == |s.trace| && k.kind == RelationKind
    ensures var t := AdmitRelation(m, b, s, k); TailKinds(s.trace, t.trace, {RelationKind}) && |Held(t.trace)| == |t.trace|
  {
    hide AdmitRelation, Held;
    RelationAdds(m, b, s, k);
  }

  lemma {:induction false} RelationTail(m: ManifestData, b: Limits, s: Selection, work: seq<Key>)
    requires |Held(s.trace)| == |s.trace| && forall k :: k in work ==> k.kind == RelationKind
    ensures TailKinds(s.trace, AdmitRelations(m, b, s, work).trace, {RelationKind})
    decreases |work|
  {
    if work != [] {
      hide *;
      var next := AdmitRelation(m, b, s, work[0]);
      RelationOneTail(m, b, s, work[0]);
      RelationTail(m, b, next, work[1..]);
      RelationsStep(m, b, s, work);
      TailChain(s.trace, next.trace, AdmitRelations(m, b, s, work).trace, {RelationKind});
    }
  }

  // Events come before gaps, and both before relations.
  ghost predicate StageByStage(trace: seq<TraceEntry>) {
    forall a, b :: 0 <= a < b < |trace| ==>
      (trace[b].key.kind == TimelineKind ==> trace[a].key.kind != GapKind && trace[a].key.kind != RelationKind) &&
      (trace[b].key.kind == GapKind ==> trace[a].key.kind != RelationKind)
  }

  lemma StagesInTurn(events: seq<TraceEntry>, gaps: seq<TraceEntry>, t: seq<TraceEntry>)
    requires OnlyKinds(events, {QuestionKind, HypothesisKind, TimelineKind})
    requires TailKinds(events, gaps, {QuestionKind, HypothesisKind, GapKind}) && TailKinds(gaps, t, {RelationKind})
    ensures StageByStage(t)
  {
    forall a | 0 <= a < |events| ensures t[a].key.kind in {QuestionKind, HypothesisKind, TimelineKind} {
      assert t[a] == gaps[a] == events[a] && events[a] in events;
    }
    forall a | |events| <= a < |gaps| ensures t[a].key.kind in {QuestionKind, HypothesisKind, GapKind} { assert t[a] == gaps[a]; }
  }

  // The run's stages, in the order of the manifest each.
  ghost predicate AsListed(m: ManifestData, trace: seq<TraceEntry>) {
    FollowsList(trace, TimelineKind, Listed(m, TimelineKind)) && FollowsList(trace, GapKind, Listed(m, GapKind)) &&
    FollowsList(trace, RelationKind, Listed(m, RelationKind))
  }

  lemma ExpandIsOrdered(m: ManifestData, b: Limits, s: Selection)
    requires |Held(s.trace)| == |s.trace| && OnlyKinds(s.trace, {QuestionKind})
    ensures AsListed(m, Expand(m, b, s).trace) && StageByStage(Expand(m, b, s).trace)
  {
    var seeds, linked := SeedIds(s.trace), Linked(m, b, s);
    var first, events, gaps, t := FirstLayer(m, b, s), UpToEvents(m, b, s), UpToGaps(m, b, s), Expand(m, b, s);
    var firstWork, eventWork, gapWork := Work(m, HypothesisKind, seeds, {}), Work(m, TimelineKind, seeds, linked), Work(m, GapKind, seeds, linked);
    hide *;
    FirstLayerIs(m, b, s);
    ExpandIs(m, b, s);
    StageKinds(m, b, s);
    WorkIsLinkable(m, HypothesisKind, seeds, {});
    WorkIsLinkable(m, TimelineKind, seeds, linked);
    WorkIsLinkable(m, GapKind, seeds, linked);
    RelationsOnly(m);
    WorkTail(m, b, s, firstWork, {}, HypothesisKind);
    WorkTail(m, b, first, eventWork, linked, TimelineKind);
    WorkTail(m, b, events, gapWork, linked, GapKind);
    RelationTail(m, b, gaps, Listed(m, RelationKind));
    NothingFollows(first.trace, {QuestionKind, HypothesisKind}, TimelineKind);
    NothingFollows(events.trace, {QuestionKind, HypothesisKind, TimelineKind}, GapKind);
    NothingFollows(gaps.trace, {QuestionKind, HypothesisKind, TimelineKind, GapKind}, RelationKind);
    WorkFollows(m, b, first, eventWork, linked, TimelineKind, []);
    WorkFollows(m, b, events, gapWork, linked, GapKind, []);
    RelationsFollow(m, b, gaps, Listed(m, RelationKind), []);
    StagesInTurn(events.trace, gaps.trace, t.trace);
    OrderCarries(m, events.trace, gaps.trace, t.trace, seeds, linked);
  }

  lemma OrderCarries(m: ManifestData, events: seq<TraceEntry>, gaps: seq<TraceEntry>, t: seq<TraceEntry>, seeds: set<Id>, linked: set<Id>)
    requires FollowsList(events, TimelineKind, [] + Work(m, TimelineKind, seeds, linked))
    requires FollowsList(gaps, GapKind, [] + Work(m, GapKind, seeds, linked)) && FollowsList(t, RelationKind, [] + Listed(m, RelationKind))
    requires TailKinds(events, gaps, {QuestionKind, HypothesisKind, GapKind}) && TailKinds(gaps, t, {RelationKind})
    ensures AsListed(m, t)
  {
    assert [] + Listed(m, RelationKind) == Listed(m, RelationKind);
    hide FollowsList, Listed, Work;
    FollowsManifest(m, events, TimelineKind, seeds, linked);
    FollowsManifest(m, gaps, GapKind, seeds, linked);
    FollowsOn(events, gaps, TimelineKind, Listed(m, TimelineKind));
    FollowsOn(gaps, t, TimelineKind, Listed(m, TimelineKind));
    FollowsOn(gaps, t, GapKind, Listed(m, GapKind));
  }

  // ------------------------------------------------------------------- seeds

  function SeedKeys(candidates: seq<Candidate>): (r: seq<Key>)
    ensures |r| == |candidates| && forall i :: 0 <= i < |candidates| ==> r[i] == Key(QuestionKind, candidates[i].QuestionId())
  {
    seq(|candidates|, i requires 0 <= i < |candidates| => Key(QuestionKind, candidates[i].QuestionId()))
  }

  lemma {:induction false} SeedsFollow(m: ManifestData, b: Limits, s: Selection, candidates: seq<Candidate>, done: seq<Key>)
    requires |Held(s.trace)| == |s.trace| && FollowsList(s.trace, QuestionKind, done)
    ensures FollowsList(AdmitSeeds(m, b, s, candidates).trace, QuestionKind, done + SeedKeys(candidates))
    decreases |candidates|
  {
    SeedKeysGroup(done, candidates);
    if candidates != [] {
      hide *;
      var k := Key(QuestionKind, candidates[0].QuestionId());
      var next := Admit(m, b, s, k, SeedOrigin(candidates[0]));
      AdmitSeedsStep(m, b, s, candidates);
      SeedAdds(m, b, s, k, SeedOrigin(candidates[0]));
      FollowsNext(s.trace, next.trace, QuestionKind, done, k);
      SeedsFollow(m, b, next, candidates[1..], done + [k]);
    }
  }

  lemma SeedKeysGroup(done: seq<Key>, candidates: seq<Candidate>)
    ensures candidates == [] ==> done + SeedKeys(candidates) == done
    ensures candidates != [] ==>
              done + [Key(QuestionKind, candidates[0].QuestionId())] + SeedKeys(candidates[1..]) == done + SeedKeys(candidates)
  {
  }

  lemma SeedAdds(m: ManifestData, b: Limits, s: Selection, k: Key, origin: Origin)
    requires |Held(s.trace)| == |s.trace| && k.kind == QuestionKind
    ensures
      var t := Admit(m, b, s, k, origin);
      s.trace <= t.trace && |Held(t.trace)| == |t.trace| && forall a :: |s.trace| <= a < |t.trace| ==> t.trace[a].key == k
  {
    QuestionNeedsItself(m, k);
    assert forall j :: j in Needs(m, k) ==> j in Elems(Needs(m, k));
    hide Needs, CapacityReason, Held;
    CommitHolds(s.trace, Needs(m, k), origin);
    CommitTail(s.trace, Needs(m, k), origin);
  }

  ghost predicate CandidatesBefore(candidates: seq<Candidate>, x: Id, y: Id) {
    exists i, j :: 0 <= i < j < |candidates| && candidates[i].QuestionId() == x && candidates[j].QuestionId() == y
  }

  // Seeds come in the order of the candidates, ahead of everything else.
  ghost predicate SeedsFirst(trace: seq<TraceEntry>, candidates: seq<Candidate>) {
    forall a, b :: 0 <= a < b < |trace| && trace[b].origin.FromSeed? ==>
      trace[a].origin.FromSeed? && CandidatesBefore(candidates, trace[a].key.id, trace[b].key.id)
  }

  lemma CandidatesListed(candidates: seq<Candidate>, x: Key, y: Key)
    requires ListedBefore(SeedKeys(candidates), x, y)
    ensures CandidatesBefore(candidates, x.id, y.id)
  {
    var i, j :| 0 <= i < j < |SeedKeys(candidates)| && SeedKeys(candidates)[i] == x && SeedKeys(candidates)[j] == y;
    assert candidates[i].QuestionId() == x.id && candidates[j].QuestionId() == y.id;
  }

  lemma SeedStageFollows(m: ManifestData, b: Limits, candidates: seq<Candidate>)
    ensures FollowsList(AdmitSeeds(m, b, NothingSelected, candidates).trace, QuestionKind, SeedKeys(candidates))
  {
    assert FollowsList(NothingSelected.trace, QuestionKind, []) && |Held(NothingSelected.trace)| == |NothingSelected.trace|;
    hide *;
    SeedsFollow(m, b, NothingSelected, candidates, []);
    assert [] + SeedKeys(candidates) == SeedKeys(candidates);
  }

  lemma SeedsComeFirst(m: ManifestData, b: Limits, candidates: seq<Candidate>)
    requires References(m) && KnownCandidates(m, candidates)
    ensures SeedsFirst(Run(m, b, candidates).trace, candidates)
  {
    var s, t := AdmitSeeds(m, b, NothingSelected, candidates), Run(m, b, candidates);
    RunKeepsInv(m, b, candidates);
    assert |Held(t.trace)| == |t.trace|;
    hide *;
    SeedStageLeads(m, b, candidates);
    SeedStageKinds(m, b, candidates);
    SeedStageFollows(m, b, candidates);
    SeedsLead(s, t, candidates);
  }

  lemma SeedsLead(s: Selection, t: Selection, candidates: seq<Candidate>)
    requires Grows(s, t) && GrowsByParents(s, t) && FromCandidates(candidates, s.trace) && |Held(t.trace)| == |t.trace|
    requires OnlyKinds(s.trace, {QuestionKind}) && FollowsList(s.trace, QuestionKind, SeedKeys(candidates))
    ensures SeedsFirst(t.trace, candidates)
  {
    hide Held, EntryOf, ListedBefore, CandidatesBefore, FromCandidates, GrowsByParents;
    forall a, b | 0 <= a < b < |t.trace| && t.trace[b].origin.FromSeed?
      ensures t.trace[a].origin.FromSeed? && CandidatesBefore(candidates, t.trace[a].key.id, t.trace[b].key.id)
    {
      SeedPosition(s, t, b);
      assert s.trace[a] == t.trace[a] && s.trace[b] == t.trace[b] && s.trace[a] in s.trace && s.trace[b] in s.trace;
      SeedEntry(candidates, s.trace, s.trace[a]);
      CandidatesListed(candidates, s.trace[a].key, s.trace[b].key);
    }
  }

  lemma SeedPosition(s: Selection, t: Selection, b: nat)
    requires s.trace <= t.trace && GrowsByParents(s, t) && |Held(t.trace)| == |t.trace|
    requires b < |t.trace| && t.trace[b].origin.FromSeed?
    ensures b < |s.trace|
  {
    assert t.trace[b] in t.trace;
    var i :| 0 <= i < |s.trace| && s.trace[i] == t.trace[b];
    assert t.trace[i] == t.trace[b];
    if i < b { NoTwice(t.trace, i, b); }
  }

  // ------------------------------------------------------------- the whole trace

  // Two events, two gaps or two relations are admitted in manifest order.
  ghost predicate InManifestOrder(m: ManifestData, trace: seq<TraceEntry>) {
    forall a, b :: 0 <= a < b < |trace| && trace[a].key.kind == trace[b].key.kind ==>
      match trace[a].key.kind
      case TimelineKind => EventsBefore(m, trace[a].key.id, trace[b].key.id)
      case GapKind => GapsBefore(m, trace[a].key.id, trace[b].key.id)
      case RelationKind => RelationsBefore(m, trace[a].key.id, trace[b].key.id)
      case _ => true
  }

  lemma ListedInManifestOrder(m: ManifestData, trace: seq<TraceEntry>)
    requires AsListed(m, trace)
    ensures InManifestOrder(m, trace)
  {
    hide Listed, ListedBefore, EventsBefore, GapsBefore, RelationsBefore;
    forall a, b | 0 <= a < b < |trace| && trace[a].key.kind == trace[b].key.kind && trace[a].key.kind in {TimelineKind, GapKind, RelationKind}
      ensures ListedBefore(Listed(m, trace[a].key.kind), trace[a].key, trace[b].key)
    {
    }
    forall a, b | 0 <= a < b < |trace| && trace[a].key.kind == trace[b].key.kind && trace[a].key.kind in {TimelineKind, GapKind, RelationKind}
      ensures
        (trace[a].key.kind == TimelineKind ==> EventsBefore(m, trace[a].key.id, trace[b].key.id)) &&
        (trace[a].key.kind == GapKind ==> GapsBefore(m, trace[a].key.id, trace[b].key.id)) &&
        (trace[a].key.kind == RelationKind ==> RelationsBefore(m, trace[a].key.id, trace[b].key.id))
    {
      ListedByRecord(m, trace[a].key, trace[b].key);
    }
  }

  // The trace of every run: seeds first and as the candidates come, then events,
  // gaps and relations, each kind in the order of the manifest.
  lemma RunIsOrdered(m: ManifestData, b: Limits, candidates: seq<Candidate>)
    requires References(m) && KnownCandidates(m, candidates)
    ensures
      var trace := Run(m, b, candidates).trace;
      SeedsFirst(trace, candidates) && InManifestOrder(m, trace) && StageByStage(trace)
  {
    var s := AdmitSeeds(m, b, NothingSelected, candidates);
    SeedStageKinds(m, b, candidates);
    assert |Held(s.trace)| == |s.trace|;
    hide *;
    SeedsComeFirst(m, b, candidates);
    RunIsExpansion(m, b, candidates);
    ExpandIsOrdered(m, b, s);
    ListedInManifestOrder(m, Expand(m, b, s).trace);
    QuestionsInOrder(m, s.trace);
  }

  lemma QuestionsInOrder(m: ManifestData, trace: seq<TraceEntry>)
    requires OnlyKinds(trace, {QuestionKind})
    ensures InManifestOrder(m, trace) && StageByStage(trace)
  {
  }
}
