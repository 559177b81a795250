// Where each expanded object of a run came from: the parent its trace entry names.

module RouteParents {
  import opened Common
  import opened AtlasModels
  import opened SemanticRoute
  import opened RouteGraph
  import opened RouteRun
  import opened RouteInvariant
  import opened RouteTheorems
  import opened RouteRecords
  import opened RouteTrace

  // ------------------------------------------------------- first in the trace

  // The IDs of the entries that a test picks, in the order of the trace.
  function IdsWhere(trace: seq<TraceEntry>, picks: TraceEntry -> bool): seq<Id> {
    if trace == [] then []
    else
      var e := trace[|trace| - 1];
      IdsWhere(trace[..|trace| - 1], picks) + (if picks(e) then [e.key.id] else [])
  }

  predicate IsSeed(e: TraceEntry) { e.origin.FromSeed? }

  predicate IsHypothesis(e: TraceEntry) { e.key.kind == HypothesisKind }

  lemma {:induction false} OrdersAreIds(trace: seq<TraceEntry>)
    ensures SeedOrder(trace) == IdsWhere(trace, IsSeed) && Order(trace, HypothesisKind) == IdsWhere(trace, IsHypothesis)
  {
    if trace != [] { OrdersAreIds(trace[..|trace| - 1]); }
  }

  // The earliest picked entry whose ID is wanted.
  ghost predicate Earliest(trace: seq<TraceEntry>, picks: TraceEntry -> bool, wanted: set<Id>, id: Id) {
    exists i :: 0 <= i < |trace| && EarliestAt(trace, picks, wanted, id, i)
  }

  ghost predicate EarliestAt(trace: seq<TraceEntry>, picks: TraceEntry -> bool, wanted: set<Id>, id: Id, i: nat)
    requires i < |trace|
  {
    picks(trace[i]) && trace[i].key.id == id && id in wanted &&
    forall j :: 0 <= j < i && picks(trace[j]) ==> trace[j].key.id !in wanted
  }

  lemma {:induction false} FirstInSnoc(order: seq<Id>, x: Id, wanted: set<Id>)
    ensures FirstIn(order + [x], wanted) ==
            if FirstIn(order, wanted).Some? then FirstIn(order, wanted) else if x in wanted then Some(x) else None
  {
    if order == [] {
      assert [] + [x] == [x] && [x][1..] == [];
    } else {
      assert (order + [x])[1..] == order[1..] + [x];
      FirstInSnoc(order[1..], x, wanted);
    }
  }

  ghost predicate NoneWanted(trace: seq<TraceEntry>, picks: TraceEntry -> bool, wanted: set<Id>) {
    forall j :: 0 <= j < |trace| && picks(trace[j]) ==> trace[j].key.id !in wanted
  }

  lemma EarliestSnoc(front: seq<TraceEntry>, e: TraceEntry, picks: TraceEntry -> bool, wanted: set<Id>, id: Id)
    ensures NoneWanted(front, picks, wanted) ==>
            (Earliest(front + [e], picks, wanted, id) <==> picks(e) && e.key.id == id && id in wanted)
    ensures !NoneWanted(front, picks, wanted) ==> (Earliest(front + [e], picks, wanted, id) <==> Earliest(front, picks, wanted, id))
    ensures NoneWanted(front + [e], picks, wanted) <==> NoneWanted(front, picks, wanted) && (picks(e) ==> e.key.id !in wanted)
  {
    var all := front + [e];
    forall j | 0 <= j < |front| ensures all[j] == front[j] {}
    assert all[|front|] == e;
    if i :| 0 <= i < |front| && EarliestAt(front, picks, wanted, id, i) { assert EarliestAt(all, picks, wanted, id, i); }
    if i :| 0 <= i < |all| && EarliestAt(all, picks, wanted, id, i) {
      if i < |front| { assert EarliestAt(front, picks, wanted, id, i); }
    }
    if NoneWanted(front, picks, wanted) && picks(e) && e.key.id == id && id in wanted {
      assert EarliestAt(all, picks, wanted, id, |front|);
    }
    if NoneWanted(all, picks, wanted) {
      forall j | 0 <= j < |front| && picks(front[j]) ensures front[j].key.id !in wanted { assert all[j] == front[j]; }
    }
  }

  lemma {:induction false} FirstInEarliest(trace: seq<TraceEntry>, picks: TraceEntry -> bool, wanted: set<Id>, id: Id)
    ensures FirstIn(IdsWhere(trace, picks), wanted) == Some(id) <==> Earliest(trace, picks, wanted, id)
    ensures FirstIn(IdsWhere(trace, picks), wanted) == None <==> NoneWanted(trace, picks, wanted)
  {
    if trace != [] {
      var front, e := trace[..|trace| - 1], trace[|trace| - 1];
      FirstInEarliest(front, picks, wanted, id);
      EarliestSnoc(front, e, picks, wanted, id);
      FirstInSnoc(IdsWhere(front, picks), e.key.id, wanted);
      hide Earliest, NoneWanted;
      assert trace == front + [e];
      assert IdsWhere(front, picks) + [] == IdsWhere(front, picks);
    }
  }

  // The parent of an object: the earliest seed it names, else the earliest
  // hypothesis among the linked ones that it names.
  lemma LinkedParentExactly(m: ManifestData, trace: seq<TraceEntry>, k: Key, linked: set<Id>, parent: Key)
    ensures
      var seeds, links := Elems(QuestionRefs(m, k)), Elems(HypothesisRefs(m, k)) * linked;
      LinkedParent(m, trace, k, linked) == Some(parent) <==>
      (parent.kind == QuestionKind && Earliest(trace, IsSeed, seeds, parent.id)) ||
      (NoneWanted(trace, IsSeed, seeds) && parent.kind == HypothesisKind && Earliest(trace, IsHypothesis, links, parent.id))
  {
    var seeds, links := Elems(QuestionRefs(m, k)), Elems(HypothesisRefs(m, k)) * linked;
    OrdersAreIds(trace);
    FirstInEarliest(trace, IsSeed, seeds, parent.id);
    FirstInEarliest(trace, IsHypothesis, links, parent.id);
    if FirstIn(SeedOrder(trace), seeds).Some? { FirstInEarliest(trace, IsSeed, seeds, FirstIn(SeedOrder(trace), seeds).value); }
    hide Earliest, NoneWanted, SeedOrder, Order, IdsWhere, FirstIn, QuestionRefs, HypothesisRefs;
    assert parent == Key(parent.kind, parent.id);
  }

  // ------------------------------------------------------------- it stays so

  lemma {:induction false} EarliestStays(a: seq<TraceEntry>, b: seq<TraceEntry>, picks: TraceEntry -> bool, wanted: set<Id>, id: Id)
    requires a <= b && Earliest(a, picks, wanted, id)
    ensures Earliest(b, picks, wanted, id)
  {
    var i :| 0 <= i < |a| && EarliestAt(a, picks, wanted, id, i);
    forall j | 0 <= j < |a| ensures a[j] == b[j] {}
    assert EarliestAt(b, picks, wanted, id, i);
  }

  lemma NoSeedsAdded(a: seq<TraceEntry>, b: seq<TraceEntry>, wanted: set<Id>)
    requires a <= b && (forall e :: e in b ==> e in a || e.origin.FromParent?) && NoneWanted(a, IsSeed, wanted)
    ensures NoneWanted(b, IsSeed, wanted)
  {
    forall j | 0 <= j < |b| && IsSeed(b[j]) ensures b[j].key.id !in wanted {
      assert b[j] in b;
      var i :| 0 <= i < |a| && a[i] == b[j];
    }
  }

  // A parent once found is found again after any expansion.
  lemma ParentStays(m: ManifestData, s: Selection, t: Selection, k: Key, linked: set<Id>, parent: Key)
    requires s.trace <= t.trace && GrowsByParents(s, t) && LinkedParent(m, s.trace, k, linked) == Some(parent)
    ensures LinkedParent(m, t.trace, k, linked) == Some(parent)
  {
    var seeds, links := Elems(QuestionRefs(m, k)), Elems(HypothesisRefs(m, k)) * linked;
    LinkedParentExactly(m, s.trace, k, linked, parent);
    LinkedParentExactly(m, t.trace, k, linked, parent);
    hide LinkedParent, Earliest, NoneWanted, QuestionRefs, HypothesisRefs;
    if parent.kind == QuestionKind {
      EarliestStays(s.trace, t.trace, IsSeed, seeds, parent.id);
    } else {
      NoSeedsAdded(s.trace, t.trace, seeds);
      EarliestStays(s.trace, t.trace, IsHypothesis, links, parent.id);
    }
  }

  // Entries of a kind name the parent that the rule gives them.
  ghost predicate ParentsFit(m: ManifestData, trace: seq<TraceEntry>, linked: set<Id>, kinds: set<Kind>) {
    forall e :: e in trace && e.key.kind in kinds ==> Parented(m, trace, linked, e)
  }

  predicate Parented(m: ManifestData, trace: seq<TraceEntry>, linked: set<Id>, e: TraceEntry) {
    e.origin.FromParent? && LinkedParent(m, trace, e.key, linked) == Some(e.origin.parent)
  }

  lemma ParentsStay(m: ManifestData, s: Selection, t: Selection, linked: set<Id>, kinds: set<Kind>, e: TraceEntry)
    requires s.trace <= t.trace && GrowsByParents(s, t) && ParentsFit(m, s.trace, linked, kinds)
    requires e in s.trace && e.key.kind in kinds
    ensures Parented(m, t.trace, linked, e)
  {
    hide LinkedParent, GrowsByParents;
    assert Parented(m, s.trace, linked, e);
    ParentStays(m, s, t, e.key, linked, e.origin.parent);
  }

  // Expanding one object keeps the rule, for kinds its closure does not hold.
  lemma ExpandedFits(m: ManifestData, b: Limits, s: Selection, k: Key, linked: set<Id>, kinds: set<Kind>)
    requires LinkedParent(m, s.trace, k, linked).Some? && ParentsFit(m, s.trace, linked, kinds)
    requires forall j :: j in Needs(m, k) && j.kind in kinds ==> j == k
    ensures ParentsFit(m, AdmitLinked(m, b, s, k, linked).trace, linked, kinds)
  {
    var t := AdmitLinked(m, b, s, k, linked);
    var parent := LinkedParent(m, s.trace, k, linked).value;
    CommitAppends(s.trace, Needs(m, k), FromParent(parent));
    CommitHolds(s.trace, Needs(m, k), FromParent(parent));
    ParentAdmission(m, b, s, k, parent);
    hide LinkedParent, Needs, CapacityReason, GrowsByParents, ParentsFit, Commit, Held;
    assert s.trace <= t.trace;
    forall e | e in t.trace && e.key.kind in kinds ensures Parented(m, t.trace, linked, e) {
      if e in s.trace {
        ParentsStay(m, s, t, linked, kinds, e);
      } else {
        ParentStays(m, s, t, k, linked, parent);
      }
    }
    FitsAll(m, t.trace, linked, kinds);
  }

  lemma FitsAll(m: ManifestData, trace: seq<TraceEntry>, linked: set<Id>, kinds: set<Kind>)
    requires forall e :: e in trace && e.key.kind in kinds ==> Parented(m, trace, linked, e)
    ensures ParentsFit(m, trace, linked, kinds)
  {
  }

  lemma FirstOfWork(m: ManifestData, b: Limits, s: Selection, work: seq<Key>, linked: set<Id>)
    requires References(m) && Inv(m, b, s) && NoMissingEndpoints(s.omissions) && linked <= OfKind(Held(s.trace), HypothesisKind)
    requires LinkableWork(m, SeedIds(s.trace), linked, work) && work != []
    ensures LinkedParent(m, s.trace, work[0], linked).Some?
    ensures
      var next := AdmitLinked(m, b, s, work[0], linked);
      Inv(m, b, next) && NoMissingEndpoints(next.omissions) && linked <= OfKind(Held(next.trace), HypothesisKind) &&
      LinkableWork(m, SeedIds(next.trace), linked, work[1..])
  {
    var next := AdmitLinked(m, b, s, work[0], linked);
    hide *;
    SeedsFit(m, b, s);
    LinkableHead(m, SeedIds(s.trace), linked, work);
    ParentIsHeld(m, s.trace, work[0], linked);
    LinkedStep(m, b, s, work[0], linked);
    SettlesKeeps(s, next, {work[0]});
  }

  lemma SeedsFit(m: ManifestData, b: Limits, s: Selection)
    requires Inv(m, b, s)
    ensures SeedsAreQuestions(s.trace)
  {
  }

  lemma LinkableHead(m: ManifestData, seeds: set<Id>, linked: set<Id>, work: seq<Key>)
    requires LinkableWork(m, seeds, linked, work) && work != []
    ensures Known(m, work[0]) && work[0].kind != RelationKind && Eligible(m, seeds, linked, work[0])
    ensures LinkableWork(m, seeds, linked, work[1..])
  {
    hide Known, Eligible;
  }

  lemma SettlesKeeps(s: Selection, t: Selection, keys: set<Key>)
    requires Settles(s, t, keys) && NoMissingEndpoints(s.omissions)
    ensures NoMissingEndpoints(t.omissions) && OfKind(Held(s.trace), HypothesisKind) <= OfKind(Held(t.trace), HypothesisKind)
  {
    GrowsKeeps(s, t);
    hide Held, OfKind;
  }

  lemma {:induction false} WorkFits(m: ManifestData, b: Limits, s: Selection, work: seq<Key>, linked: set<Id>, kinds: set<Kind>)
    requires References(m) && Inv(m, b, s) && NoMissingEndpoints(s.omissions) && linked <= OfKind(Held(s.trace), HypothesisKind)
    requires LinkableWork(m, SeedIds(s.trace), linked, work) && ParentsFit(m, s.trace, linked, kinds)
    requires forall k, j :: k in work && j in Needs(m, k) && j.kind in kinds ==> j == k
    ensures ParentsFit(m, AdmitAll(m, b, s, work, linked).trace, linked, kinds)
    decreases |work|
  {
    if work != [] {
      hide References, Held, SeedIds, Inv, AdmitLinked, ParentsFit, Needs, LinkedParent, OfKind, LinkableWork, NoMissingEndpoints;
      FirstOfWork(m, b, s, work, linked);
      ExpandedFits(m, b, s, work[0], linked, kinds);
      WorkFits(m, b, AdmitLinked(m, b, s, work[0], linked), work[1..], linked, kinds);
    }
  }

  // --------------------------------------------------------------- relations

  // A relation's parent is its source hypothesis.
  predicate RelationFits(m: ManifestData, e: TraceEntry) {
    e.key.kind == RelationKind ==>
      |HypothesisRefs(m, e.key)| > 0 && e.origin == FromParent(Key(HypothesisKind, HypothesisRefs(m, e.key)[0]))
  }

  predicate RelationsFit(m: ManifestData, trace: seq<TraceEntry>) {
    forall e :: e in trace ==> RelationFits(m, e)
  }

  // Only relations are added.
  predicate AddsRelations(s: Selection, t: Selection) {
    forall e :: e in t.trace ==> e in s.trace || e.key.kind == RelationKind
  }

  lemma RelationNeeds(m: ManifestData, k: Key)
    requires k.kind == RelationKind
    ensures forall j :: j in Needs(m, k) <==> j == k
  {
    NeedsElems(m, k);
  }

  lemma {:induction false} RelationWorkFits(m: ManifestData, b: Limits, s: Selection, work: seq<Key>)
    requires RelationsFit(m, s.trace) && forall k :: k in work ==> k.kind == RelationKind
    ensures var t := AdmitRelations(m, b, s, work); RelationsFit(m, t.trace) && AddsRelations(s, t) && s.trace <= t.trace
    decreases |work|
  {
    if work != [] {
      var k := work[0];
      var next := AdmitRelation(m, b, s, k);
      RelationStepFits(m, b, s, k);
      hide RelationFits, AdmitRelation;
      RelationWorkFits(m, b, next, work[1..]);
    }
  }

  lemma RelationStepFits(m: ManifestData, b: Limits, s: Selection, k: Key)
    requires RelationsFit(m, s.trace) && k.kind == RelationKind
    ensures var t := AdmitRelation(m, b, s, k); RelationsFit(m, t.trace) && AddsRelations(s, t) && s.trace <= t.trace
  {
    RelationEntries(m, b, s, k);
    hide AdmitRelation, HypothesisRefs;
    forall e | e in AdmitRelation(m, b, s, k).trace ensures RelationFits(m, e) && (e in s.trace || e.key.kind == RelationKind) {}
  }

  // What one relation can add.
  lemma RelationEntries(m: ManifestData, b: Limits, s: Selection, k: Key)
    requires k.kind == RelationKind
    ensures
      var t := AdmitRelation(m, b, s, k);
      s.trace <= t.trace &&
      forall e :: e in t.trace && e !in s.trace ==>
        e.key == k && |HypothesisRefs(m, k)| > 0 && e.origin == FromParent(Key(HypothesisKind, HypothesisRefs(m, k)[0]))
  {
    RelationNeeds(m, k);
    hide Needs, CapacityReason, HypothesisRefs, Held, OfKind;
    if |HypothesisRefs(m, k)| > 0 {
      CommitAppends(s.trace, Needs(m, k), FromParent(Key(HypothesisKind, HypothesisRefs(m, k)[0])));
      CommitHolds(s.trace, Needs(m, k), FromParent(Key(HypothesisKind, HypothesisRefs(m, k)[0])));
    } else {
      assert Elems(HypothesisRefs(m, k)) == {};
    }
  }

  // --------------------------------------------------------------- the stages

  lemma {:induction false} WorkKinds(m: ManifestData, b: Limits, s: Selection, work: seq<Key>, linked: set<Id>, e: TraceEntry)
    requires e in AdmitAll(m, b, s, work, linked).trace && e !in s.trace
    ensures e.key.kind == QuestionKind || e.key.kind == HypothesisKind || e.key in work
    decreases |work|
  {
    if work != [] {
      var k := work[0];
      var next := AdmitLinked(m, b, s, k, linked);
      var parent := LinkedParent(m, s.trace, k, linked);
      hide LinkedParent, CapacityReason, Held;
      CommitAppends(s.trace, Needs(m, k), FromParent(if parent.Some? then parent.value else k));
      NeedsElems(m, k);
      hide Needs;
      if e !in next.trace { WorkKinds(m, b, next, work[1..], linked, e); }
    }
  }

  lemma OwnClosure(m: ManifestData, work: seq<Key>, kinds: set<Kind>)
    requires (kinds == {HypothesisKind} && forall k :: k in work ==> k.kind == HypothesisKind) || kinds == {TimelineKind, GapKind}
    ensures forall k, j :: k in work && j in Needs(m, k) && j.kind in kinds ==> j == k
  {
    forall k, j | k in work && j in Needs(m, k) && j.kind in kinds ensures j == k { NeedsElems(m, k); }
  }

  // The stages of an expansion: first-layer hypotheses, events, gaps.
  function Linked(m: ManifestData, b: Limits, s: Selection): set<Id> {
    OfKind(Held(FirstLayer(m, b, s).trace), HypothesisKind)
  }

  function UpToEvents(m: ManifestData, b: Limits, s: Selection): Selection {
    AdmitAll(m, b, FirstLayer(m, b, s), Work(m, TimelineKind, SeedIds(s.trace), Linked(m, b, s)), Linked(m, b, s))
  }

  function UpToGaps(m: ManifestData, b: Limits, s: Selection): Selection {
    AdmitAll(m, b, UpToEvents(m, b, s), Work(m, GapKind, SeedIds(s.trace), Linked(m, b, s)), Linked(m, b, s))
  }

  lemma ExpandIs(m: ManifestData, b: Limits, s: Selection)
    ensures Expand(m, b, s) == AdmitRelations(m, b, UpToGaps(m, b, s), Listed(m, RelationKind))
  {
    hide AdmitAll, AdmitRelations, FirstLayer, Work, Listed, Held, OfKind, SeedIds;
  }

  ghost predicate Ready(m: ManifestData, b: Limits, s: Selection, t: Selection) {
    Inv(m, b, t) && NoMissingEndpoints(t.omissions) && SeedIds(t.trace) == SeedIds(s.trace) && s.trace <= t.trace && GrowsByParents(s, t)
  }

  lemma WorkIsLinkable(m: ManifestData, kind: Kind, seeds: set<Id>, linked: set<Id>)
    requires kind != RelationKind
    ensures LinkableWork(m, seeds, linked, Work(m, kind, seeds, linked)) && forall k :: k in Work(m, kind, seeds, linked) ==> k.kind == kind
  {
    WorkElems(m, kind, seeds, linked);
  }

  lemma StageReady(m: ManifestData, b: Limits, s: Selection, t: Selection, work: seq<Key>, linked: set<Id>)
    requires References(m) && Ready(m, b, s, t) && linked <= OfKind(Held(t.trace), HypothesisKind)
    requires LinkableWork(m, SeedIds(s.trace), linked, work)
    ensures var u := AdmitAll(m, b, t, work, linked);
            Ready(m, b, s, u) && linked <= OfKind(Held(u.trace), HypothesisKind) && t.trace <= u.trace
  {
    hide References, Inv, Held, SeedIds, AdmitAll, Known, Eligible, OfKind;
    WorkSettles(m, b, t, work, linked);
    WorkGrowsByParents(m, b, t, work, linked);
    GrowsKeeps(t, AdmitAll(m, b, t, work, linked));
  }

  lemma FirstReady(m: ManifestData, b: Limits, s: Selection)
    requires References(m) && Inv(m, b, s) && NoMissingEndpoints(s.omissions)
    ensures Ready(m, b, s, FirstLayer(m, b, s))
  {
    var work := Work(m, HypothesisKind, SeedIds(s.trace), {});
    WorkIsLinkable(m, HypothesisKind, SeedIds(s.trace), {});
    SelfGrows(s);
    hide References, Inv, Held, SeedIds, AdmitAll, OfKind, LinkableWork, Work;
    StageReady(m, b, s, s, work, {});
  }

  lemma EventsReady(m: ManifestData, b: Limits, s: Selection)
    requires References(m) && Inv(m, b, s) && NoMissingEndpoints(s.omissions)
    ensures Ready(m, b, s, UpToEvents(m, b, s)) && Linked(m, b, s) <= OfKind(Held(UpToEvents(m, b, s).trace), HypothesisKind)
    ensures FirstLayer(m, b, s).trace <= UpToEvents(m, b, s).trace
  {
    FirstReady(m, b, s);
    WorkIsLinkable(m, TimelineKind, SeedIds(s.trace), Linked(m, b, s));
    hide References, Inv, Held, SeedIds, AdmitAll, FirstLayer, OfKind, LinkableWork, Work, Ready;
    StageReady(m, b, s, FirstLayer(m, b, s), Work(m, TimelineKind, SeedIds(s.trace), Linked(m, b, s)), Linked(m, b, s));
  }

  lemma GapsReady(m: ManifestData, b: Limits, s: Selection)
    requires References(m) && Inv(m, b, s) && NoMissingEndpoints(s.omissions)
    ensures Ready(m, b, s, UpToGaps(m, b, s)) && UpToEvents(m, b, s).trace <= UpToGaps(m, b, s).trace
  {
    EventsReady(m, b, s);
    WorkIsLinkable(m, GapKind, SeedIds(s.trace), Linked(m, b, s));
    hide References, Inv, Held, SeedIds, AdmitAll, UpToEvents, OfKind, LinkableWork, Work, Ready, Linked;
    StageReady(m, b, s, UpToEvents(m, b, s), Work(m, GapKind, SeedIds(s.trace), Linked(m, b, s)), Linked(m, b, s));
  }

  ghost predicate OnlyKinds(trace: seq<TraceEntry>, kinds: set<Kind>) {
    forall e :: e in trace ==> e.key.kind in kinds
  }

  lemma StageKinds(m: ManifestData, b: Limits, s: Selection)
    requires OnlyKinds(s.trace, {QuestionKind})
    ensures OnlyKinds(FirstLayer(m, b, s).trace, {QuestionKind, HypothesisKind})
    ensures OnlyKinds(UpToEvents(m, b, s).trace, {QuestionKind, HypothesisKind, TimelineKind})
    ensures OnlyKinds(UpToGaps(m, b, s).trace, {QuestionKind, HypothesisKind, TimelineKind, GapKind})
  {
    var seeds, linked := SeedIds(s.trace), Linked(m, b, s);
    WorkIsLinkable(m, HypothesisKind, seeds, {});
    WorkIsLinkable(m, TimelineKind, seeds, linked);
    WorkIsLinkable(m, GapKind, seeds, linked);
    hide AdmitAll, Work, Held, SeedIds, OfKind, LinkableWork;
    forall e | e in FirstLayer(m, b, s).trace ensures e.key.kind in {QuestionKind, HypothesisKind} {
      if e !in s.trace { WorkKinds(m, b, s, Work(m, HypothesisKind, seeds, {}), {}, e); }
    }
    forall e | e in UpToEvents(m, b, s).trace ensures e.key.kind in {QuestionKind, HypothesisKind, TimelineKind} {
      if e !in FirstLayer(m, b, s).trace { WorkKinds(m, b, FirstLayer(m, b, s), Work(m, TimelineKind, seeds, linked), linked, e); }
    }
    forall e | e in UpToGaps(m, b, s).trace ensures e.key.kind in {QuestionKind, HypothesisKind, TimelineKind, GapKind} {
      if e !in UpToEvents(m, b, s).trace { WorkKinds(m, b, UpToEvents(m, b, s), Work(m, GapKind, seeds, linked), linked, e); }
    }
  }

  // ------------------------------------------------------ parents of a run

  lemma NothingFits(m: ManifestData, trace: seq<TraceEntry>, linked: set<Id>, held: set<Kind>, kinds: set<Kind>)
    requires OnlyKinds(trace, held) && held !! kinds
    ensures ParentsFit(m, trace, linked, kinds)
  {
  }

  lemma ReadyInv(m: ManifestData, b: Limits, s: Selection, t: Selection)
    requires Ready(m, b, s, t)
    ensures Inv(m, b, t) && NoMissingEndpoints(t.omissions) && SeedIds(t.trace) == SeedIds(s.trace) && s.trace <= t.trace && GrowsByParents(s, t)
  {
  }

  // First-layer hypotheses hang on seeds.
  lemma FirstLayerFits(m: ManifestData, b: Limits, s: Selection)
    requires References(m) && Inv(m, b, s) && NoMissingEndpoints(s.omissions) && OnlyKinds(s.trace, {QuestionKind})
    ensures ParentsFit(m, FirstLayer(m, b, s).trace, {}, {HypothesisKind})
  {
    var work := Work(m, HypothesisKind, SeedIds(s.trace), {});
    hide *;
    WorkIsLinkable(m, HypothesisKind, SeedIds(s.trace), {});
    OwnClosure(m, work, {HypothesisKind});
    NothingFits(m, s.trace, {}, {QuestionKind}, {HypothesisKind});
    WorkFits(m, b, s, work, {}, {HypothesisKind});
    FirstLayerIs(m, b, s);
  }

  lemma FirstLayerIs(m: ManifestData, b: Limits, s: Selection)
    ensures FirstLayer(m, b, s) == AdmitAll(m, b, s, Work(m, HypothesisKind, SeedIds(s.trace), {}), {})
    ensures UpToEvents(m, b, s) == AdmitAll(m, b, FirstLayer(m, b, s), Work(m, TimelineKind, SeedIds(s.trace), Linked(m, b, s)), Linked(m, b, s))
    ensures UpToGaps(m, b, s) == AdmitAll(m, b, UpToEvents(m, b, s), Work(m, GapKind, SeedIds(s.trace), Linked(m, b, s)), Linked(m, b, s))
    ensures Linked(m, b, s) == OfKind(Held(FirstLayer(m, b, s).trace), HypothesisKind)
  {
  }

  // Events and gaps hang on seeds, or on first-layer hypotheses.
  lemma LinkedFits(m: ManifestData, b: Limits, s: Selection)
    requires References(m) && Inv(m, b, s) && NoMissingEndpoints(s.omissions) && OnlyKinds(s.trace, {QuestionKind})
    ensures ParentsFit(m, UpToGaps(m, b, s).trace, Linked(m, b, s), {TimelineKind, GapKind})
  {
    var seeds, linked, kinds := SeedIds(s.trace), Linked(m, b, s), {TimelineKind, GapKind};
    var first, events := FirstLayer(m, b, s), UpToEvents(m, b, s);
    var eventWork, gapWork := Work(m, TimelineKind, seeds, linked), Work(m, GapKind, seeds, linked);
    hide *;
    FirstLayerIs(m, b, s);
    FirstReady(m, b, s);
    EventsReady(m, b, s);
    ReadyInv(m, b, s, first);
    ReadyInv(m, b, s, events);
    StageKinds(m, b, s);
    WorkIsLinkable(m, TimelineKind, seeds, linked);
    WorkIsLinkable(m, GapKind, seeds, linked);
    OwnClosure(m, eventWork, kinds);
    OwnClosure(m, gapWork, kinds);
    NothingFits(m, first.trace, linked, {QuestionKind, HypothesisKind}, kinds);
    WorkFits(m, b, first, eventWork, linked, kinds);
    WorkFits(m, b, events, gapWork, linked, kinds);
  }

  lemma ExpandFits(m: ManifestData, b: Limits, s: Selection)
    requires References(m) && Inv(m, b, s) && NoMissingEndpoints(s.omissions) && OnlyKinds(s.trace, {QuestionKind})
    ensures
      var t := Expand(m, b, s);
      ParentsFit(m, t.trace, Linked(m, b, s), {TimelineKind, GapKind}) && RelationsFit(m, t.trace) &&
      UpToGaps(m, b, s).trace <= t.trace && GrowsByParents(s, t)
  {
    var gaps, t, kinds := UpToGaps(m, b, s), Expand(m, b, s), {TimelineKind, GapKind};
    hide *;
    ExpandIs(m, b, s);
    LinkedFits(m, b, s);
    StageKinds(m, b, s);
    NoRelationsYet(m, gaps.trace);
    RelationsOnly(m);
    RelationWorkFits(m, b, gaps, Listed(m, RelationKind));
    RelationsGrowByParents(m, b, gaps, Listed(m, RelationKind));
    ExpandGrowsByParents(m, b, s);
    LaterRelationsKeep(m, gaps, t, Linked(m, b, s), kinds);
  }

  lemma NoRelationsYet(m: ManifestData, trace: seq<TraceEntry>)
    requires OnlyKinds(trace, {QuestionKind, HypothesisKind, TimelineKind, GapKind})
    ensures RelationsFit(m, trace)
  {
  }

  lemma RelationsOnly(m: ManifestData)
    ensures forall k :: k in Listed(m, RelationKind) ==> k.kind == RelationKind
  {
    ListedElems(m, RelationKind);
  }

  lemma LaterRelationsKeep(m: ManifestData, s: Selection, t: Selection, linked: set<Id>, kinds: set<Kind>)
    requires s.trace <= t.trace && GrowsByParents(s, t) && AddsRelations(s, t) && ParentsFit(m, s.trace, linked, kinds)
    requires RelationKind !in kinds
    ensures ParentsFit(m, t.trace, linked, kinds)
  {
    hide Parented, GrowsByParents, ParentsFit;
    forall e | e in t.trace && e.key.kind in kinds ensures Parented(m, t.trace, linked, e) {
      ParentsStay(m, s, t, linked, kinds, e);
    }
    FitsAll(m, t.trace, linked, kinds);
  }

  // ---------------------------------------------------------- parents by record

  // The parent is the earliest seed of the trace among these questions.
  ghost predicate FirstSeed(s: Selection, questionIds: seq<Id>, parent: Key) {
    parent.kind == QuestionKind && parent.id in questionIds &&
    exists i :: 0 <= i < |s.trace| && s.trace[i].origin.FromSeed? && s.trace[i].key.id == parent.id &&
      forall j :: 0 <= j < i && s.trace[j].origin.FromSeed? ==> s.trace[j].key.id !in questionIds
  }

  // The parent is the earliest first-layer hypothesis of the trace among these.
  ghost predicate FirstLinked(m: ManifestData, s: Selection, hypothesisIds: seq<Id>, parent: Key) {
    parent.kind == HypothesisKind && parent.id in hypothesisIds && FirstLayerOf(m, s, parent.id) &&
    exists i :: 0 <= i < |s.trace| && s.trace[i].key == parent &&
      forall j :: 0 <= j < i && s.trace[j].key.kind == HypothesisKind ==>
        !(s.trace[j].key.id in hypothesisIds && FirstLayerOf(m, s, s.trace[j].key.id))
  }

  ghost predicate LinkParent(m: ManifestData, s: Selection, questionIds: seq<Id>, hypothesisIds: seq<Id>, origin: Origin) {
    origin.FromParent? &&
    (FirstSeed(s, questionIds, origin.parent) || (!NamesSeed(s, questionIds) && FirstLinked(m, s, hypothesisIds, origin.parent)))
  }

  lemma FirstSeedIs(s: Selection, questionIds: seq<Id>, parent: Key)
    requires parent.kind == QuestionKind && Earliest(s.trace, IsSeed, Elems(questionIds), parent.id)
    ensures FirstSeed(s, questionIds, parent)
  {
    var i :| 0 <= i < |s.trace| && EarliestAt(s.trace, IsSeed, Elems(questionIds), parent.id, i);
    forall j | 0 <= j < i && s.trace[j].origin.FromSeed? ensures s.trace[j].key.id !in questionIds { assert IsSeed(s.trace[j]); }
    assert s.trace[i].origin.FromSeed? && s.trace[i].key.id == parent.id;
  }

  lemma NoSeedIs(s: Selection, questionIds: seq<Id>)
    requires NoneWanted(s.trace, IsSeed, Elems(questionIds))
    ensures !NamesSeed(s, questionIds)
  {
    forall q | q in questionIds ensures !Seeded(s, q) {
      forall e | e in s.trace && e.key.id == q ensures !e.origin.FromSeed? {
        var j :| 0 <= j < |s.trace| && s.trace[j] == e;
        if IsSeed(s.trace[j]) { assert q in Elems(questionIds); }
      }
    }
  }

  lemma FirstLinkedIs(m: ManifestData, s: Selection, hypothesisIds: seq<Id>, linked: set<Id>, parent: Key)
    requires parent.kind == HypothesisKind && Earliest(s.trace, IsHypothesis, Elems(hypothesisIds) * linked, parent.id)
    requires forall id :: id in linked <==> FirstLayerOf(m, s, id)
    ensures FirstLinked(m, s, hypothesisIds, parent)
  {
    hide FirstLayerOf;
    var i :| 0 <= i < |s.trace| && EarliestAt(s.trace, IsHypothesis, Elems(hypothesisIds) * linked, parent.id, i);
    assert s.trace[i].key == Key(s.trace[i].key.kind, s.trace[i].key.id);
    forall j | 0 <= j < i && s.trace[j].key.kind == HypothesisKind
      ensures !(s.trace[j].key.id in hypothesisIds && FirstLayerOf(m, s, s.trace[j].key.id))
    {
      assert IsHypothesis(s.trace[j]);
    }
  }

  lemma ParentedByRecord(m: ManifestData, s: Selection, linked: set<Id>, e: TraceEntry, questionIds: seq<Id>, hypothesisIds: seq<Id>)
    requires Parented(m, s.trace, linked, e) && forall id :: id in linked <==> FirstLayerOf(m, s, id)
    requires QuestionRefs(m, e.key) == questionIds && HypothesisRefs(m, e.key) == hypothesisIds
    ensures LinkParent(m, s, questionIds, hypothesisIds, e.origin)
  {
    LinkedParentExactly(m, s.trace, e.key, linked, e.origin.parent);
    hide LinkedParent, Earliest, NoneWanted, FirstLayerOf, NamesSeed, FirstSeed, FirstLinked, QuestionRefs, HypothesisRefs;
    if e.origin.parent.kind == QuestionKind && Earliest(s.trace, IsSeed, Elems(questionIds), e.origin.parent.id) {
      FirstSeedIs(s, questionIds, e.origin.parent);
    } else {
      NoSeedIs(s, questionIds);
      FirstLinkedIs(m, s, hypothesisIds, linked, e.origin.parent);
    }
  }

  lemma SeedStageKinds(m: ManifestData, b: Limits, candidates: seq<Candidate>)
    requires References(m) && KnownCandidates(m, candidates)
    ensures
      var s := AdmitSeeds(m, b, NothingSelected, candidates);
      OnlyKinds(s.trace, {QuestionKind}) && Inv(m, b, s) && NoMissingEndpoints(s.omissions) &&
      forall k :: k in Held(s.trace) ==> k.kind == QuestionKind
  {
    SeedStageHolds(m, b, candidates);
    var s := AdmitSeeds(m, b, NothingSelected, candidates);
    hide References, KnownCandidates, AdmitSeeds, Inv;
    forall e | e in s.trace ensures e.key.kind in {QuestionKind} { assert e.key in Held(s.trace); }
  }

  // Linked hypotheses of the expansion are the first-layer ones of the outcome.
  lemma LinkedByRecord(m: ManifestData, b: Limits, s: Selection)
    requires UniqueIds(m) && References(m) && Inv(m, b, s) && NoMissingEndpoints(s.omissions)
    requires forall k :: k in Held(s.trace) ==> k.kind == QuestionKind
    ensures forall id :: id in Linked(m, b, s) <==> FirstLayerOf(m, Expand(m, b, s), id)
  {
    var t := Expand(m, b, s);
    LinkedIsSeedLinked(m, b, s);
    ExpandKeepsInv(m, b, s);
    assert forall k :: k in Held(t.trace) ==> Known(m, k);
    hide Inv, References, UniqueIds, Expand, FirstLayer, SeedLinked, FirstLayerOf, Held, OfKind;
    forall id ensures id in SeedLinked(m, t) <==> FirstLayerOf(m, t, id) { LinkedIsFirstLayer(m, t, id); }
  }

  // Which parent an expanded event, gap or relation names: an event or gap the
  // earliest seed it names, or else the earliest first-layer hypothesis; a relation
  // its source hypothesis.
  lemma ParentsByRecord(m: ManifestData, b: Limits, candidates: seq<Candidate>, e: TraceEntry)
    requires UniqueIds(m) && References(m) && KnownCandidates(m, candidates) && e in Run(m, b, candidates).trace
    ensures
      var s := Run(m, b, candidates);
      (forall x :: x in m.timeline && e.key == Key(TimelineKind, x.eventId) ==> LinkParent(m, s, x.questionIds, x.hypothesisIds, e.origin)) &&
      (forall x :: x in m.gaps && e.key == Key(GapKind, x.gapId) ==>
        LinkParent(m, s, x.relatedQuestionIds, x.relatedHypothesisIds, e.origin)) &&
      (forall x :: x in m.relations && e.key == Key(RelationKind, x.relationId) ==>
        e.origin == FromParent(Key(HypothesisKind, x.sourceHypothesisId)))
  {
    var s := AdmitSeeds(m, b, NothingSelected, candidates);
    SeedStageKinds(m, b, candidates);
    RunIsExpansion(m, b, candidates);
    if SeedIds(s.trace) == {} {
      assert e.key.kind == QuestionKind;
    } else {
      hide *;
      ExpandFits(m, b, s);
      LinkedByRecord(m, b, s);
      ExpandedParents(m, Expand(m, b, s), Linked(m, b, s), e);
    }
  }

  lemma ExpandedParents(m: ManifestData, t: Selection, linked: set<Id>, e: TraceEntry)
    requires UniqueIds(m) && ParentsFit(m, t.trace, linked, {TimelineKind, GapKind}) && RelationsFit(m, t.trace) && e in t.trace
    requires forall id :: id in linked <==> FirstLayerOf(m, t, id)
    ensures forall x :: x in m.timeline && e.key == Key(TimelineKind, x.eventId) ==> LinkParent(m, t, x.questionIds, x.hypothesisIds, e.origin)
    ensures forall x :: x in m.gaps && e.key == Key(GapKind, x.gapId) ==>
              LinkParent(m, t, x.relatedQuestionIds, x.relatedHypothesisIds, e.origin)
    ensures forall x :: x in m.relations && e.key == Key(RelationKind, x.relationId) ==>
              e.origin == FromParent(Key(HypothesisKind, x.sourceHypothesisId))
  {
    assert e.key.kind == TimelineKind || e.key.kind == GapKind ==> Parented(m, t.trace, linked, e);
    assert RelationFits(m, e);
    hide UniqueIds, LinkParent, Parented, FirstLayerOf;
    forall x | x in m.timeline && e.key == Key(TimelineKind, x.eventId) ensures LinkParent(m, t, x.questionIds, x.hypothesisIds, e.origin) {
      EventFields(m, x);
      ParentedByRecord(m, t, linked, e, x.questionIds, x.hypothesisIds);
    }
    forall x | x in m.gaps && e.key == Key(GapKind, x.gapId)
      ensures LinkParent(m, t, x.relatedQuestionIds, x.relatedHypothesisIds, e.origin)
    {
      GapFields(m, x);
      ParentedByRecord(m, t, linked, e, x.relatedQuestionIds, x.relatedHypothesisIds);
    }
    forall x | x in m.relations && e.key == Key(RelationKind, x.relationId)
      ensures e.origin == FromParent(Key(HypothesisKind, x.sourceHypothesisId))
    {
      RelationFields(m, x);
    }
  }

  lemma SameEntry(trace: seq<TraceEntry>, d: TraceEntry, e: TraceEntry)
    requires |Held(trace)| == |trace| && d in trace && e in trace && d.key == e.key
    ensures d == e
  {
    var keys := Map(EntryKey, trace);
    assert Elems(keys) == Held(trace) by { MapElems(EntryKey, trace); }
    DistinctIndices(keys);
    var i :| 0 <= i < |trace| && trace[i] == d;
    var j :| 0 <= j < |trace| && trace[j] == e;
    assert keys[i] == keys[j];
  }

  // A hypothesis that names a seed came in with the first layer.
  lemma FromFirstLayer(m: ManifestData, b: Limits, candidates: seq<Candidate>, e: TraceEntry, h: Hypothesis)
    requires UniqueIds(m) && References(m) && KnownCandidates(m, candidates) && e in Run(m, b, candidates).trace
    requires h in m.hypotheses && e.key == Key(HypothesisKind, h.hypothesisId) && NamesSeed(Run(m, b, candidates), h.questionIds)
    ensures
      var s := AdmitSeeds(m, b, NothingSelected, candidates);
      SeedIds(s.trace) != {} && e in FirstLayer(m, b, s).trace
  {
    var s, t := AdmitSeeds(m, b, NothingSelected, candidates), Run(m, b, candidates);
    SeedStageKinds(m, b, candidates);
    RunIsExpansion(m, b, candidates);
    RunKeepsInv(m, b, candidates);
    HypothesisFields(m, h);
    SeedNamed(t, h.questionIds);
    assert |Held(t.trace)| == |t.trace| && Held(t.trace) !! Refused(t.omissions);
    hide AdmitSeeds, References, UniqueIds, KnownCandidates, Run, NamesSeed, QuestionRefs, HypothesisRefs, FirstLayer, Expand, Known, SeedIds, Inv,
         OnlyKinds;
    assert SeedIds(t.trace) != {};
    var k := e.key;
    assert Elems(QuestionRefs(m, k)) * SeedIds(t.trace) != {};
    LayerOne(m, b, s);
    ExpandKeepsInv(m, b, s);
    FirstThenRest(m, b, s);
    WorkElems(m, HypothesisKind, SeedIds(s.trace), {});
    assert k in Work(m, HypothesisKind, SeedIds(s.trace), {});
    hide Work, Eligible;
    var first := FirstLayer(m, b, s);
    assert Settled(first, k);
    GrowsKeeps(first, t);
    assert k in Held(t.trace);
    var d :| d in first.trace && d.key == k;
    assert d in t.trace;
    SameEntry(t.trace, d, e);
  }

  lemma FirstThenRest(m: ManifestData, b: Limits, s: Selection)
    requires References(m) && Inv(m, b, s) && NoMissingEndpoints(s.omissions)
    ensures Grows(FirstLayer(m, b, s), Expand(m, b, s)) && GrowsByParents(FirstLayer(m, b, s), Expand(m, b, s))
  {
    var seeds, linked := SeedIds(s.trace), Linked(m, b, s);
    var first, events, gaps := FirstLayer(m, b, s), UpToEvents(m, b, s), UpToGaps(m, b, s);
    hide *;
    FirstLayerIs(m, b, s);
    ExpandIs(m, b, s);
    FirstReady(m, b, s);
    EventsReady(m, b, s);
    GapsReady(m, b, s);
    ReadyInv(m, b, s, first);
    ReadyInv(m, b, s, events);
    ReadyInv(m, b, s, gaps);
    WorkIsLinkable(m, TimelineKind, seeds, linked);
    WorkIsLinkable(m, GapKind, seeds, linked);
    RelationsKnown(m);
    WorkSettles(m, b, first, Work(m, TimelineKind, seeds, linked), linked);
    WorkSettles(m, b, events, Work(m, GapKind, seeds, linked), linked);
    RelationsSettle(m, b, gaps, Listed(m, RelationKind));
    WorkGrowsByParents(m, b, first, Work(m, TimelineKind, seeds, linked), linked);
    WorkGrowsByParents(m, b, events, Work(m, GapKind, seeds, linked), linked);
    RelationsGrowByParents(m, b, gaps, Listed(m, RelationKind));
    GrowChain(first, events, gaps, Expand(m, b, s));
  }

  lemma RelationsKnown(m: ManifestData)
    ensures forall k :: k in Listed(m, RelationKind) ==> Known(m, k) && k.kind == RelationKind
  {
    ListedElems(m, RelationKind);
  }

  // The earliest seed of the trace among the questions a hypothesis names.
  lemma HypothesisParents(m: ManifestData, b: Limits, candidates: seq<Candidate>, e: TraceEntry, h: Hypothesis)
    requires UniqueIds(m) && References(m) && KnownCandidates(m, candidates) && e in Run(m, b, candidates).trace
    requires h in m.hypotheses && e.key == Key(HypothesisKind, h.hypothesisId) && NamesSeed(Run(m, b, candidates), h.questionIds)
    ensures e.origin.FromParent? && FirstSeed(Run(m, b, candidates), h.questionIds, e.origin.parent)
  {
    var s, t := AdmitSeeds(m, b, NothingSelected, candidates), Run(m, b, candidates);
    SeedStageKinds(m, b, candidates);
    RunIsExpansion(m, b, candidates);
    FromFirstLayer(m, b, candidates, e, h);
    hide *;
    var first := FirstLayer(m, b, s);
    FirstLayerFits(m, b, s);
    FirstThenRest(m, b, s);
    FirstParent(m, first, t, e);
    HypothesisFields(m, h);
    LinkedParentExactly(m, t.trace, e.key, {}, e.origin.parent);
    NoLinks(t.trace, HypothesisRefs(m, e.key), e.origin.parent);
    FirstSeedIs(t, h.questionIds, e.origin.parent);
  }

  lemma FirstParent(m: ManifestData, first: Selection, t: Selection, e: TraceEntry)
    requires ParentsFit(m, first.trace, {}, {HypothesisKind}) && Grows(first, t) && GrowsByParents(first, t)
    requires e in first.trace && e.key.kind == HypothesisKind
    ensures e.origin.FromParent? && LinkedParent(m, t.trace, e.key, {}) == Some(e.origin.parent)
  {
    hide LinkedParent, GrowsByParents;
    ParentsStay(m, first, t, {}, {HypothesisKind}, e);
  }

  lemma NoLinks(trace: seq<TraceEntry>, refs: seq<Id>, parent: Key)
    ensures !Earliest(trace, IsHypothesis, Elems(refs) * {}, parent.id)
  {
  }

  lemma GrowChain(a: Selection, b: Selection, c: Selection, d: Selection)
    requires Grows(a, b) && Grows(b, c) && Grows(c, d) && GrowsByParents(a, b) && GrowsByParents(b, c) && GrowsByParents(c, d)
    ensures Grows(a, d) && GrowsByParents(a, d)
  {
  }
}
