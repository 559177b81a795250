// What every routing step keeps, and what follows for a whole run.

module RouteInvariant {
  import opened Common
  import opened AtlasModels
  import opened SemanticRoute
  import opened RouteGraph
  import opened RouteRun

  ghost predicate SeedsAreQuestions(trace: seq<TraceEntry>) {
    forall e :: e in trace && e.origin.FromSeed? ==> e.key.kind == QuestionKind
  }

  predicate Endpoints(m: ManifestData, held: set<Key>, k: Key) {
    k.kind == RelationKind ==> Elems(HypothesisRefs(m, k)) <= OfKind(held, HypothesisKind)
  }

  // Every held object's closure is held, and so are a relation's endpoints.
  ghost predicate Closed(m: ManifestData, held: set<Key>) {
    forall k :: k in held ==> Elems(Needs(m, k)) <= held && Endpoints(m, held, k)
  }

  // The refusal still has its reason: admitting the object on top of what is
  // held would overrun the recorded budget, or an endpoint is not held.
  predicate Justified(m: ManifestData, b: Limits, held: set<Key>, o: Omission) {
    if o.reason == ReferenceBudget then o.key.kind == RelationKind && !Endpoints(m, held, o.key)
    else Exceeds(m, b, held + Elems(Needs(m, o.key)), o.reason)
  }

  ghost predicate Inv(m: ManifestData, b: Limits, s: Selection) {
    |Held(s.trace)| == |s.trace| && |Refused(s.omissions)| == |s.omissions| &&
    Held(s.trace) !! Refused(s.omissions) &&
    (forall k :: k in Held(s.trace) + Refused(s.omissions) ==> Known(m, k)) &&
    CapacityReason(m, b, Held(s.trace)) == None &&
    ParentsPrecede(s.trace) && SeedsAreQuestions(s.trace) &&
    Closed(m, Held(s.trace)) &&
    (forall o :: o in s.omissions ==> Justified(m, b, Held(s.trace), o))
  }

  // ------------------------------------------------------ the closure order

  lemma {:induction false} QuestionsOfContains(m: ManifestData, hypothesisIds: seq<Id>, h: Id)
    requires h in hypothesisIds
    ensures Elems(QuestionRefs(m, Key(HypothesisKind, h))) <= Elems(QuestionsOf(m, hypothesisIds))
  {
    if hypothesisIds[0] != h { QuestionsOfContains(m, hypothesisIds[1..], h); }
  }

  lemma KeysOfElems(kind: Kind, ids: seq<Id>)
    ensures forall k :: k in KeysOf(kind, ids) <==> k.kind == kind && k.id in ids
  {
    forall k: Key | k.kind == kind && k.id in ids ensures k in KeysOf(kind, ids) {
      var i :| 0 <= i < |ids| && ids[i] == k.id;
      assert KeysOf(kind, ids)[i] == k;
    }
  }

  lemma NeedsElems(m: ManifestData, k: Key)
    ensures forall j :: j in Needs(m, k) <==>
      j == k || (j.kind == QuestionKind && j.id in RequiredQuestions(m, k)) ||
      (j.kind == HypothesisKind && j.id in RequiredHypotheses(m, k))
  {
    KeysOfElems(QuestionKind, RequiredQuestions(m, k));
    KeysOfElems(HypothesisKind, RequiredHypotheses(m, k));
  }

  // A closure contains the closure of each of its members.
  lemma NeedsAreTransitive(m: ManifestData, k: Key, j: Key)
    requires j in Needs(m, k)
    ensures Elems(Needs(m, j)) <= Elems(Needs(m, k))
  {
    NeedsElems(m, k);
    NeedsElems(m, j);
    if j != k && j.kind == HypothesisKind {
      QuestionsOfContains(m, HypothesisRefs(m, k), j.id);
      var all := QuestionRefs(m, k) + QuestionsOf(m, HypothesisRefs(m, k));
      forall q | q in RequiredQuestions(m, j) ensures q in RequiredQuestions(m, k) {
        assert q in Elems(QuestionRefs(m, j));
        assert q in Elems(all);
        assert q in Elems(StableUnique(all));
      }
    }
  }

  // ---------------------------------------------------------------- commits

  lemma HeldSnoc(trace: seq<TraceEntry>, e: TraceEntry)
    ensures Held(trace + [e]) == Held(trace) + {e.key}
    ensures ParentsPrecede(trace + [e])
       <==> ParentsPrecede(trace) && (e.origin.FromParent? ==> e.origin.parent in Held(trace))
  {
    assert Held(trace + [e]) == Held(trace) + {e.key};
    assert (trace + [e])[..|trace|] == trace;
  }

  lemma {:induction false} CommitHolds(trace: seq<TraceEntry>, keys: seq<Key>, origin: Origin)
    ensures var r := Commit(trace, keys, origin);
            trace <= r && Held(r) == Held(trace) + Elems(keys) && (|Held(trace)| == |trace| ==> |Held(r)| == |r|)
    decreases |keys|
  {
    if keys == [] {
      assert Held(trace) == Held(trace) + Elems(keys);
    } else {
      var next := if keys[0] in Held(trace) then trace else trace + [TraceEntry(keys[0], origin)];
      HeldSnoc(trace, TraceEntry(keys[0], origin));
      CommitHolds(next, keys[1..], origin);
      assert Held(next) == Held(trace) + {keys[0]};
      assert Elems(keys) == {keys[0]} + Elems(keys[1..]);
    }
  }

  lemma {:induction false} CommitOrders(trace: seq<TraceEntry>, keys: seq<Key>, origin: Origin)
    requires ParentsPrecede(trace) && (origin.FromParent? ==> origin.parent in Held(trace))
    ensures ParentsPrecede(Commit(trace, keys, origin))
    decreases |keys|
  {
    if keys != [] {
      HeldSnoc(trace, TraceEntry(keys[0], origin));
      CommitOrders(if keys[0] in Held(trace) then trace else trace + [TraceEntry(keys[0], origin)], keys[1..], origin);
    }
  }

  // What a commit appends carries the one origin and comes from the closure.
  lemma {:induction false} CommitAppends(trace: seq<TraceEntry>, keys: seq<Key>, origin: Origin)
    ensures forall e :: e in Commit(trace, keys, origin) ==> e in trace || (e.origin == origin && e.key in keys)
    decreases |keys|
  {
    if keys != [] {
      CommitAppends(if keys[0] in Held(trace) then trace else trace + [TraceEntry(keys[0], origin)], keys[1..], origin);
    }
  }

  // ------------------------------------------------------------- one step

  lemma OmitFacts(omissions: seq<Omission>, k: Key, reason: OmissionReason)
    requires |Refused(omissions)| == |omissions|
    ensures var r := Omit(omissions, k, reason);
            omissions <= r && Refused(r) == Refused(omissions) + {k} && |Refused(r)| == |r|
    ensures forall o :: o in Omit(omissions, k, reason) ==> o in omissions || o == Omission(k, reason)
  {
    assert Refused(omissions + [Omission(k, reason)]) == Refused(omissions) + {k};
  }

  // Refusals survive whatever a successful step commits; in particular no
  // committed object was refused before, so clearing an omission does nothing.
  lemma CommitKeepsRefusals(m: ManifestData, b: Limits, held: set<Key>, o: Omission, k: Key)
    requires Justified(m, b, held, o)
    requires CapacityReason(m, b, held + Elems(Needs(m, k))) == None
    requires Endpoints(m, held, k)
    requires k.kind != RelationKind ==> o.reason != ReferenceBudget
    ensures o.key !in Needs(m, k)
    ensures Justified(m, b, held + Elems(Needs(m, k)), o)
  {
    var after := held + Elems(Needs(m, k));
    if o.reason == ReferenceBudget {
      NeedsElems(m, k);
      assert OfKind(after, HypothesisKind) == OfKind(held, HypothesisKind);
    } else {
      ExceedsMonotone(m, b, held + Elems(Needs(m, o.key)), after + Elems(Needs(m, o.key)), o.reason);
      if o.key in Needs(m, k) {
        NeedsAreTransitive(m, k, o.key);
        assert after + Elems(Needs(m, o.key)) == after;
        CapacityReasonExceeds(m, b, after);
      }
    }
  }

  // A refusal is justified at once.
  lemma RefusalIsJustified(m: ManifestData, b: Limits, held: set<Key>, k: Key)
    requires CapacityReason(m, b, held) == None && Closed(m, held)
    requires CapacityReason(m, b, held + Elems(Needs(m, k))).Some?
    ensures k !in held
    ensures Justified(m, b, held, Omission(k, CapacityReason(m, b, held + Elems(Needs(m, k))).value))
  {
    CapacityReasonExceeds(m, b, held + Elems(Needs(m, k)));
    assert k in held ==> held + Elems(Needs(m, k)) == held;
  }

  lemma ClosedByNeeds(m: ManifestData, held: set<Key>, k: Key)
    requires Closed(m, held) && Endpoints(m, held, k)
    ensures Closed(m, held + Elems(Needs(m, k)))
  {
    var after := held + Elems(Needs(m, k));
    assert OfKind(held, HypothesisKind) <= OfKind(after, HypothesisKind);
    NeedsElems(m, k);
    forall j | j in after ensures Elems(Needs(m, j)) <= after && Endpoints(m, after, j) {
      if j in Needs(m, k) { NeedsAreTransitive(m, k, j); }
    }
  }

  // ------------------------------------------------- references are resolved

  predicate KnownIds(m: ManifestData, kind: Kind, ids: set<Id>) {
    forall id :: id in ids ==> Known(m, Key(kind, id))
  }

  predicate References(m: ManifestData) {
    ClosedReferences(m.sources, m.evidence, m.questions, m.hypotheses, m.relations, m.timeline, m.gaps)
  }

  lemma RefsResolve(m: ManifestData, k: Key)
    requires References(m)
    ensures Elems(QuestionRefs(m, k)) <= QuestionIds(m.questions)
    ensures Elems(HypothesisRefs(m, k)) <= HypothesisIds(m.hypotheses)
  {
  }

  lemma RefsAreKnown(m: ManifestData, k: Key)
    requires References(m)
    ensures KnownIds(m, QuestionKind, Elems(QuestionRefs(m, k)))
    ensures KnownIds(m, HypothesisKind, Elems(HypothesisRefs(m, k)))
  {
    RefsResolve(m, k);
    ListedIdsAreKnown(m);
  }

  lemma ListedIdsAreKnown(m: ManifestData)
    ensures KnownIds(m, QuestionKind, QuestionIds(m.questions))
    ensures KnownIds(m, HypothesisKind, HypothesisIds(m.hypotheses))
  {
  }

  lemma {:induction false} QuestionsOfKnown(m: ManifestData, hypothesisIds: seq<Id>)
    requires References(m)
    ensures KnownIds(m, QuestionKind, Elems(QuestionsOf(m, hypothesisIds)))
  {
    if hypothesisIds != [] {
      RefsAreKnown(m, Key(HypothesisKind, hypothesisIds[0]));
      QuestionsOfKnown(m, hypothesisIds[1..]);
    }
  }

  lemma NeedsAreKnown(m: ManifestData, k: Key)
    requires References(m) && Known(m, k)
    ensures forall j :: j in Needs(m, k) ==> Known(m, j)
  {
    NeedsElems(m, k);
    RefsAreKnown(m, k);
    QuestionsOfKnown(m, HypothesisRefs(m, k));
    var all := QuestionRefs(m, k) + QuestionsOf(m, HypothesisRefs(m, k));
    forall q | q in RequiredQuestions(m, k) ensures Known(m, Key(QuestionKind, q)) {
      if k.kind != HypothesisKind { assert q in Elems(StableUnique(all)); assert q in Elems(all); }
    }
    forall h | h in RequiredHypotheses(m, k) ensures Known(m, Key(HypothesisKind, h)) {
      assert h in Elems(HypothesisRefs(m, k));
    }
  }

  // -------------------------------------------------------------- the step

  predicate NoMissingEndpoints(omissions: seq<Omission>) {
    forall o :: o in omissions ==> o.reason != ReferenceBudget
  }

  lemma RefuseKeepsInv(m: ManifestData, b: Limits, s: Selection, k: Key)
    requires Inv(m, b, s) && Known(m, k)
    requires CapacityReason(m, b, Held(s.trace) + Elems(Needs(m, k))).Some?
    ensures var reason := CapacityReason(m, b, Held(s.trace) + Elems(Needs(m, k))).value;
            Inv(m, b, s.(omissions := Omit(s.omissions, k, reason)))
  {
    var reason := CapacityReason(m, b, Held(s.trace) + Elems(Needs(m, k))).value;
    RefusalIsJustified(m, b, Held(s.trace), k);
    OmitFacts(s.omissions, k, reason);
  }

  lemma CommitKeepsSeeds(m: ManifestData, trace: seq<TraceEntry>, k: Key, origin: Origin)
    requires SeedsAreQuestions(trace) && (origin.FromSeed? ==> k.kind == QuestionKind)
    ensures SeedsAreQuestions(Commit(trace, Needs(m, k), origin))
    ensures origin.FromParent? ==> SeedIds(Commit(trace, Needs(m, k), origin)) == SeedIds(trace)
  {
    CommitAppends(trace, Needs(m, k), origin);
    CommitHolds(trace, Needs(m, k), origin);
    NeedsElems(m, k);
  }

  lemma CommitKeepsInv(m: ManifestData, b: Limits, s: Selection, k: Key, origin: Origin)
    requires References(m) && Inv(m, b, s) && Known(m, k) && Endpoints(m, Held(s.trace), k)
    requires CapacityReason(m, b, Held(s.trace) + Elems(Needs(m, k))) == None
    requires k.kind != RelationKind ==> NoMissingEndpoints(s.omissions)
    requires origin.FromParent? ==> origin.parent in Held(s.trace)
    requires origin.FromSeed? ==> k.kind == QuestionKind
    ensures Inv(m, b, s.(trace := Commit(s.trace, Needs(m, k), origin)))
    ensures Elems(Needs(m, k)) !! Refused(s.omissions)
  {
    var held := Held(s.trace);
    var needs := Needs(m, k);
    CommitHolds(s.trace, needs, origin);
    CommitOrders(s.trace, needs, origin);
    CommitKeepsSeeds(m, s.trace, k, origin);
    NeedsAreKnown(m, k);
    ClosedByNeeds(m, held, k);
    forall o | o in s.omissions ensures o.key !in needs && Justified(m, b, held + Elems(needs), o) {
      CommitKeepsRefusals(m, b, held, o, k);
    }
  }

  // The one step behind every admit method keeps the whole invariant.
  lemma AdmitKeepsInv(m: ManifestData, b: Limits, s: Selection, k: Key, origin: Origin)
    requires References(m) && Inv(m, b, s) && Known(m, k) && Endpoints(m, Held(s.trace), k)
    requires k.kind != RelationKind ==> NoMissingEndpoints(s.omissions)
    requires origin.FromParent? ==> origin.parent in Held(s.trace)
    requires origin.FromSeed? ==> k.kind == QuestionKind
    ensures Inv(m, b, Admit(m, b, s, k, origin))
  {
    if CapacityReason(m, b, Held(s.trace) + Elems(Needs(m, k))).Some? {
      RefuseKeepsInv(m, b, s, k);
    } else {
      CommitKeepsInv(m, b, s, k, origin);
    }
  }
}
