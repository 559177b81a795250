// The admission trace read off records: which entries are seeds, in what order,
// with which scores, and from which parent an expanded object came.

module RouteTrace {
  import opened Common
  import opened AtlasModels
  import opened SemanticRoute
  import opened RouteGraph
  import opened RouteRun
  import opened RouteInvariant
  import opened RouteTheorems
  import opened RouteRecords

  // -------------------------------------------------------------------- seeds

  // The entry is a candidate's, with the rank and score of its own channel.
  predicate EntryOf(c: Candidate, e: TraceEntry) {
    e.key == Key(QuestionKind, c.QuestionId()) &&
    match c
    case Semantic(x) =>
      e.origin.FromSeed? && e.origin.channel == SemanticChannel && e.origin.rank == x.rank &&
      e.origin.semanticScore == Some(x.score) && e.origin.lexicalScore == None
    case Lexical(x) =>
      e.origin.FromSeed? && e.origin.channel == LexicalChannel && e.origin.rank == x.rank &&
      e.origin.semanticScore == None && e.origin.lexicalScore == Some(x.score)
  }

  ghost predicate FromCandidates(candidates: seq<Candidate>, trace: seq<TraceEntry>) {
    forall e :: e in trace ==> exists c :: c in candidates && EntryOf(c, e)
  }

  // Everything that `t` adds to `s` has a parent.
  ghost predicate GrowsByParents(s: Selection, t: Selection) {
    forall e :: e in t.trace ==> e in s.trace || e.origin.FromParent?
  }

  lemma SeedAdmission(m: ManifestData, b: Limits, s: Selection, c: Candidate, e: TraceEntry)
    requires e in Admit(m, b, s, Key(QuestionKind, c.QuestionId()), SeedOrigin(c)).trace && e !in s.trace
    ensures EntryOf(c, e)
  {
    var k := Key(QuestionKind, c.QuestionId());
    CommitAppends(s.trace, Needs(m, k), SeedOrigin(c));
    QuestionNeedsItself(m, k);
    assert e.key in Elems(Needs(m, k));
  }

  lemma {:induction false} SeedsComeFrom(
    m: ManifestData, b: Limits, s: Selection, candidates: seq<Candidate>, all: seq<Candidate>)
    requires FromCandidates(all, s.trace) && Elems(candidates) <= Elems(all)
    ensures FromCandidates(all, AdmitSeeds(m, b, s, candidates).trace)
    decreases |candidates|
  {
    hide Admit, EntryOf;
    if candidates != [] {
      var c := candidates[0];
      var next := Admit(m, b, s, Key(QuestionKind, c.QuestionId()), SeedOrigin(c));
      assert c in Elems(all);
      forall e | e in next.trace ensures exists d :: d in all && EntryOf(d, e) {
        if e !in s.trace { SeedAdmission(m, b, s, c, e); }
      }
      SeedsComeFrom(m, b, next, candidates[1..], all);
    }
  }

  lemma ParentAdmission(m: ManifestData, b: Limits, s: Selection, k: Key, parent: Key)
    ensures GrowsByParents(s, Admit(m, b, s, k, FromParent(parent)))
  {
    CommitAppends(s.trace, Needs(m, k), FromParent(parent));
    hide Needs, CapacityReason;
  }

  lemma {:induction false} WorkGrowsByParents(m: ManifestData, b: Limits, s: Selection, work: seq<Key>, linked: set<Id>)
    ensures GrowsByParents(s, AdmitAll(m, b, s, work, linked))
    decreases |work|
  {
    hide Admit, LinkedParent;
    if work != [] {
      var parent := LinkedParent(m, s.trace, work[0], linked);
      ParentAdmission(m, b, s, work[0], if parent.Some? then parent.value else work[0]);
      WorkGrowsByParents(m, b, AdmitLinked(m, b, s, work[0], linked), work[1..], linked);
    }
  }

  lemma {:induction false} RelationsGrowByParents(m: ManifestData, b: Limits, s: Selection, work: seq<Key>)
    ensures GrowsByParents(s, AdmitRelations(m, b, s, work))
    decreases |work|
  {
    hide Admit, HypothesisRefs, OfKind;
    if work != [] {
      if |HypothesisRefs(m, work[0])| > 0 {
        ParentAdmission(m, b, s, work[0], Key(HypothesisKind, HypothesisRefs(m, work[0])[0]));
      }
      RelationsGrowByParents(m, b, AdmitRelation(m, b, s, work[0]), work[1..]);
    }
  }

  lemma ExpandGrowsByParents(m: ManifestData, b: Limits, s: Selection)
    ensures GrowsByParents(s, Expand(m, b, s))
  {
    hide AdmitAll, AdmitRelations, Work, Listed, Held, OfKind, SeedIds;
    var seeds := SeedIds(s.trace);
    var first := FirstLayer(m, b, s);
    var linked := OfKind(Held(first.trace), HypothesisKind);
    var events := AdmitAll(m, b, first, Work(m, TimelineKind, seeds, linked), linked);
    var gaps := AdmitAll(m, b, events, Work(m, GapKind, seeds, linked), linked);
    WorkGrowsByParents(m, b, s, Work(m, HypothesisKind, seeds, {}), {});
    WorkGrowsByParents(m, b, first, Work(m, TimelineKind, seeds, linked), linked);
    WorkGrowsByParents(m, b, events, Work(m, GapKind, seeds, linked), linked);
    RelationsGrowByParents(m, b, gaps, Listed(m, RelationKind));
  }

  // The run's trace is that of the seed stage, continued with parented entries.
  lemma SeedStageLeads(m: ManifestData, b: Limits, candidates: seq<Candidate>)
    requires References(m) && KnownCandidates(m, candidates)
    ensures
      var s, t := AdmitSeeds(m, b, NothingSelected, candidates), Run(m, b, candidates);
      Grows(s, t) && GrowsByParents(s, t) && FromCandidates(candidates, s.trace)
  {
    var s := AdmitSeeds(m, b, NothingSelected, candidates);
    assert FromCandidates(candidates, NothingSelected.trace);
    SeedStageHolds(m, b, candidates);
    hide *;
    SeedsComeFrom(m, b, NothingSelected, candidates, candidates);
    ExpansionLeads(m, b, s);
    SelfGrows(s);
    RunIsExpansion(m, b, candidates);
  }

  lemma RunIsExpansion(m: ManifestData, b: Limits, candidates: seq<Candidate>)
    ensures
      var s := AdmitSeeds(m, b, NothingSelected, candidates);
      Run(m, b, candidates) == if SeedIds(s.trace) == {} then s else Expand(m, b, s)
  {
    hide AdmitSeeds, SeedIds, Expand;
  }

  lemma ExpansionLeads(m: ManifestData, b: Limits, s: Selection)
    requires References(m) && Inv(m, b, s) && NoMissingEndpoints(s.omissions)
    requires forall k :: k in Held(s.trace) ==> k.kind == QuestionKind
    ensures Grows(s, Expand(m, b, s)) && GrowsByParents(s, Expand(m, b, s))
  {
    hide *;
    ExpandKeepsInv(m, b, s);
    ExpandGrowsByParents(m, b, s);
  }

  lemma SelfGrows(s: Selection)
    ensures GrowsByParents(s, s) && Grows(s, s)
  {
  }

  // Every seed entry is a candidate's, with the rank and score of its channel, and
  // all seed entries come before any other.
  lemma SeedEntriesAreCandidates(m: ManifestData, b: Limits, candidates: seq<Candidate>, i: nat)
    requires References(m) && KnownCandidates(m, candidates)
    requires i < |Run(m, b, candidates).trace| && Run(m, b, candidates).trace[i].origin.FromSeed?
    ensures exists c :: c in candidates && EntryOf(c, Run(m, b, candidates).trace[i])
  {
    hide References, KnownCandidates, Run, AdmitSeeds, EntryOf;
    SeedStageLeads(m, b, candidates);
    assert Run(m, b, candidates).trace[i] in Run(m, b, candidates).trace;
  }

  // A candidate is admitted as a seed or not at all.
  lemma AdmittedCandidatesAreSeeds(m: ManifestData, b: Limits, candidates: seq<Candidate>, c: Candidate)
    requires UniqueIds(m) && References(m) && KnownCandidates(m, candidates) && c in candidates
    requires Admitted(Run(m, b, candidates), QuestionKind, c.QuestionId())
    ensures Seeded(Run(m, b, candidates), c.QuestionId())
  {
    var s, t, k := AdmitSeeds(m, b, NothingSelected, candidates), Run(m, b, candidates), Key(QuestionKind, c.QuestionId());
    SeedStageLeads(m, b, candidates);
    NothingSelectedInv(m, b);
    SeedsSettle(m, b, NothingSelected, candidates);
    assert Settled(s, k) by { assert k in CandidateKeys(candidates); }
    hide References, KnownCandidates, Run, AdmitSeeds, Inv, UniqueIds, Settles, GrowsByParents, CandidateKeys;
    HeldIsAdmitted(t, QuestionKind, c.QuestionId());
    RunLosesNothing(m, b, candidates);
    GrowsKeeps(s, t);
    assert k in Held(s.trace);
    var e :| e in s.trace && e.key == k;
    SeedEntry(candidates, s.trace, e);
    assert e in t.trace;
  }

  lemma SeedEntry(candidates: seq<Candidate>, trace: seq<TraceEntry>, e: TraceEntry)
    requires FromCandidates(candidates, trace) && e in trace
    ensures e.origin.FromSeed?
  {
  }

  // ------------------------------------------------------- order and priority

  predicate DistinctCandidates(candidates: seq<Candidate>) {
    forall i, j :: 0 <= i < j < |candidates| ==> candidates[i].QuestionId() != candidates[j].QuestionId()
  }

  lemma {:induction false} AdmitSeedsSplit(m: ManifestData, b: Limits, s: Selection, x: seq<Candidate>, y: seq<Candidate>)
    ensures AdmitSeeds(m, b, s, x + y) == AdmitSeeds(m, b, AdmitSeeds(m, b, s, x), y)
    decreases |x|
  {
    hide Admit;
    if x == [] {
      assert x + y == y;
    } else {
      var k := Key(QuestionKind, x[0].QuestionId());
      assert (x + y)[1..] == x[1..] + y;
      AdmitSeedsSplit(m, b, Admit(m, b, s, k, SeedOrigin(x[0])), x[1..], y);
    }
  }

  // With the question budget used up no further seed enters.
  lemma {:induction false} FullTakesNoSeed(m: ManifestData, b: Limits, s: Selection, candidates: seq<Candidate>)
    requires |OfKind(Held(s.trace), QuestionKind)| >= b.maxQuestions
    requires forall c :: c in candidates ==> Key(QuestionKind, c.QuestionId()) !in Held(s.trace)
    ensures AdmitSeeds(m, b, s, candidates).trace == s.trace
    decreases |candidates|
  {
    if candidates != [] {
      var k := Key(QuestionKind, candidates[0].QuestionId());
      QuestionNeedsItself(m, k);
      var more := OfKind(Held(s.trace) + {k}, QuestionKind);
      assert more == OfKind(Held(s.trace), QuestionKind) + {k.id};
      hide Held, Needs, OfKind;
      assert Exceeds(m, b, Held(s.trace) + {k}, QuestionBudget);
      FullTakesNoSeed(m, b, Admit(m, b, s, k, SeedOrigin(candidates[0])), candidates[1..]);
    }
  }

  lemma {:induction false} SeedStageHeld(m: ManifestData, b: Limits, s: Selection, candidates: seq<Candidate>)
    ensures Held(AdmitSeeds(m, b, s, candidates).trace) <= Held(s.trace) + CandidateKeys(candidates)
    ensures Refused(AdmitSeeds(m, b, s, candidates).omissions) <= Refused(s.omissions) + CandidateKeys(candidates)
    decreases |candidates|
  {
    if candidates != [] {
      var k := Key(QuestionKind, candidates[0].QuestionId());
      var origin := SeedOrigin(candidates[0]);
      CommitHolds(s.trace, Needs(m, k), origin);
      QuestionNeedsItself(m, k);
      CandidateKeysCons(candidates);
      hide Needs, CapacityReason;
      SeedStageHeld(m, b, Admit(m, b, s, k, origin), candidates[1..]);
    }
  }

  lemma OthersKeepOmission(m: ManifestData, b: Limits, s: Selection, candidates: seq<Candidate>, o: Omission)
    requires o in AdmitSeeds(m, b, s, candidates).omissions && o.key !in CandidateKeys(candidates)
    ensures o in s.omissions
    decreases |candidates|
  {
    if candidates != [] {
      var k := Key(QuestionKind, candidates[0].QuestionId());
      CandidateKeysCons(candidates);
      hide Needs, CapacityReason, Held;
      OthersKeepOmission(m, b, Admit(m, b, s, k, SeedOrigin(candidates[0])), candidates[1..], o);
    }
  }

  lemma KeysApart(candidates: seq<Candidate>, i: nat)
    requires DistinctCandidates(candidates) && i < |candidates|
    ensures var k := Key(QuestionKind, candidates[i].QuestionId());
            k !in CandidateKeys(candidates[..i]) && k !in CandidateKeys(candidates[i + 1..])
    ensures forall c :: c in candidates[i + 1..] ==> Key(QuestionKind, c.QuestionId()) !in CandidateKeys(candidates[..i])
  {
  }

  // A list of candidates is admitted up to one of them, then that one, then the rest.
  lemma AdmitSeedsAt(m: ManifestData, b: Limits, s: Selection, candidates: seq<Candidate>, i: nat)
    requires i < |candidates|
    ensures
      var c, before := candidates[i], AdmitSeeds(m, b, s, candidates[..i]);
      var next := Admit(m, b, before, Key(QuestionKind, c.QuestionId()), SeedOrigin(c));
      AdmitSeeds(m, b, s, candidates) == AdmitSeeds(m, b, next, candidates[i + 1..])
  {
    var before := AdmitSeeds(m, b, s, candidates[..i]);
    hide Admit, AdmitSeeds;
    assert candidates == candidates[..i] + candidates[i..];
    AdmitSeedsSplit(m, b, s, candidates[..i], candidates[i..]);
    AdmitSeedsStep(m, b, before, candidates[i..]);
    assert candidates[i..][1..] == candidates[i + 1..];
  }

  lemma AdmitSeedsStep(m: ManifestData, b: Limits, s: Selection, candidates: seq<Candidate>)
    requires candidates != []
    ensures
      AdmitSeeds(m, b, s, candidates) ==
      AdmitSeeds(m, b, Admit(m, b, s, Key(QuestionKind, candidates[0].QuestionId()), SeedOrigin(candidates[0])), candidates[1..])
  {
    hide Admit;
  }

  // A candidate refused for the question budget ends the admission of seeds.
  lemma QuestionBudgetEndsSeeds(m: ManifestData, b: Limits, candidates: seq<Candidate>, i: nat)
    requires DistinctCandidates(candidates) && i < |candidates|
    requires Omission(Key(QuestionKind, candidates[i].QuestionId()), QuestionBudget)
             in AdmitSeeds(m, b, NothingSelected, candidates).omissions
    ensures AdmitSeeds(m, b, NothingSelected, candidates).trace == AdmitSeeds(m, b, NothingSelected, candidates[..i]).trace
  {
    var k := Key(QuestionKind, candidates[i].QuestionId());
    var o := Omission(k, QuestionBudget);
    var s := AdmitSeeds(m, b, NothingSelected, candidates[..i]);
    var next := Admit(m, b, s, k, SeedOrigin(candidates[i]));
    KeysApart(candidates, i);
    assert Held(NothingSelected.trace) == {} && Refused(NothingSelected.omissions) == {};
    hide *;
    AdmitSeedsAt(m, b, NothingSelected, candidates, i);
    SeedStageHeld(m, b, NothingSelected, candidates[..i]);
    OthersKeepOmission(m, b, next, candidates[i + 1..], o);
    RefusedAtStep(m, b, s, k, SeedOrigin(candidates[i]), o);
    FullTakesNoSeed(m, b, next, candidates[i + 1..]);
  }

  lemma RefusedAtStep(m: ManifestData, b: Limits, s: Selection, k: Key, origin: Origin, o: Omission)
    requires k.kind == QuestionKind && k !in Held(s.trace) && k !in Refused(s.omissions)
    requires o == Omission(k, QuestionBudget) && o in Admit(m, b, s, k, origin).omissions
    ensures Admit(m, b, s, k, origin).trace == s.trace && |OfKind(Held(s.trace), QuestionKind)| >= b.maxQuestions
  {
    assert o !in s.omissions;
    QuestionNeedsItself(m, k);
    assert OfKind(Held(s.trace) + {k}, QuestionKind) == OfKind(Held(s.trace), QuestionKind) + {k.id};
  }

  // Expansion refuses no question.
  predicate NoNewQuestionRefused(s: Selection, t: Selection) {
    forall o :: o in t.omissions && o.key.kind == QuestionKind ==> o in s.omissions
  }

  lemma {:induction false} WorkRefusesNoQuestion(m: ManifestData, b: Limits, s: Selection, work: seq<Key>, linked: set<Id>)
    requires forall k :: k in work ==> k.kind != QuestionKind
    ensures NoNewQuestionRefused(s, AdmitAll(m, b, s, work, linked))
    decreases |work|
  {
    hide Needs, CapacityReason, LinkedParent, Held;
    if work != [] { WorkRefusesNoQuestion(m, b, AdmitLinked(m, b, s, work[0], linked), work[1..], linked); }
  }

  lemma {:induction false} RelationsRefuseNoQuestion(m: ManifestData, b: Limits, s: Selection, work: seq<Key>)
    requires forall k :: k in work ==> k.kind != QuestionKind
    ensures NoNewQuestionRefused(s, AdmitRelations(m, b, s, work))
    decreases |work|
  {
    hide Needs, CapacityReason, HypothesisRefs, Held, OfKind;
    if work != [] { RelationsRefuseNoQuestion(m, b, AdmitRelation(m, b, s, work[0]), work[1..]); }
  }

  lemma ExpandRefusesNoQuestion(m: ManifestData, b: Limits, s: Selection)
    ensures NoNewQuestionRefused(s, Expand(m, b, s))
  {
    var seeds := SeedIds(s.trace);
    var first := FirstLayer(m, b, s);
    var linked := OfKind(Held(first.trace), HypothesisKind);
    var events := AdmitAll(m, b, first, Work(m, TimelineKind, seeds, linked), linked);
    var gaps := AdmitAll(m, b, events, Work(m, GapKind, seeds, linked), linked);
    WorkElems(m, HypothesisKind, seeds, {});
    WorkElems(m, TimelineKind, seeds, linked);
    WorkElems(m, GapKind, seeds, linked);
    ListedElems(m, RelationKind);
    hide AdmitAll, AdmitRelations, Work, Listed, Held, OfKind, SeedIds, Known, Eligible;
    WorkRefusesNoQuestion(m, b, s, Work(m, HypothesisKind, seeds, {}), {});
    WorkRefusesNoQuestion(m, b, first, Work(m, TimelineKind, seeds, linked), linked);
    WorkRefusesNoQuestion(m, b, events, Work(m, GapKind, seeds, linked), linked);
    RelationsRefuseNoQuestion(m, b, gaps, Listed(m, RelationKind));
  }

  // The seeds of a run are those of its first candidates, when a later one was
  // refused for the question budget.
  lemma SeedsBeforeRefusal(m: ManifestData, b: Limits, candidates: seq<Candidate>, i: nat, id: Id)
    requires References(m) && KnownCandidates(m, candidates) && DistinctCandidates(candidates) && i < |candidates|
    requires Omission(Key(QuestionKind, candidates[i].QuestionId()), QuestionBudget) in Run(m, b, candidates).omissions
    requires Seeded(Run(m, b, candidates), id)
    ensures exists j :: 0 <= j < i && candidates[j].QuestionId() == id
  {
    var s, t := AdmitSeeds(m, b, NothingSelected, candidates), Run(m, b, candidates);
    var early := AdmitSeeds(m, b, NothingSelected, candidates[..i]);
    var o := Omission(Key(QuestionKind, candidates[i].QuestionId()), QuestionBudget);
    assert FromCandidates(candidates[..i], NothingSelected.trace);
    SeedStageLeads(m, b, candidates);
    ExpandRefusesNoQuestion(m, b, s);
    RunIsExpansion(m, b, candidates);
    assert o in s.omissions;
    hide References, KnownCandidates, Run, Expand, AdmitSeeds, DistinctCandidates, SeedIds, Grows, EntryOf;
    QuestionBudgetEndsSeeds(m, b, candidates, i);
    SeedsComeFrom(m, b, NothingSelected, candidates[..i], candidates[..i]);
    var e :| e in t.trace && e.key.id == id && e.origin.FromSeed?;
    assert e in early.trace;
    var c :| c in candidates[..i] && EntryOf(c, e);
    EntryNames(c, e);
  }

  lemma EntryNames(c: Candidate, e: TraceEntry)
    requires EntryOf(c, e)
    ensures e.key == Key(QuestionKind, c.QuestionId())
  {
  }

  // Semantic candidates come first: once one is refused for the question budget,
  // no later semantic candidate and no lexical one becomes a seed.
  lemma SemanticBeforeLexical(m: ManifestData, b: Limits, r: Receipt, i: nat)
    requires References(m) && KnownCandidates(m, r.OrderedCandidates()) && ValidReceipt(r) && i < |r.semantic|
    requires Omission(Key(QuestionKind, r.semantic[i].questionId), QuestionBudget) in
             Run(m, b, r.OrderedCandidates()).omissions
    ensures
      var s := Run(m, b, r.OrderedCandidates());
      (forall x :: x in r.lexical ==> !Seeded(s, x.questionId)) &&
      (forall j :: i <= j < |r.semantic| ==> !Seeded(s, r.semantic[j].questionId)) &&
      (forall id :: Seeded(s, id) ==> exists j :: 0 <= j < i && r.semantic[j].questionId == id)
  {
    var candidates := r.OrderedCandidates();
    var s := Run(m, b, candidates);
    OrderedBySource(r);
    hide References, KnownCandidates, Run, ValidReceipt, Seeded;
    forall id | Seeded(s, id) ensures exists j :: 0 <= j < i && r.semantic[j].questionId == id {
      SeedsBeforeRefusal(m, b, candidates, i, id);
    }
    ChannelsApart(r);
  }

  lemma ChannelsApart(r: Receipt)
    requires ValidReceipt(r)
    ensures forall j, x :: 0 <= j < |r.semantic| && x in r.lexical ==> r.semantic[j].questionId != x.questionId
    ensures forall i, j :: 0 <= i < |r.semantic| && 0 <= j < i ==> r.semantic[j].questionId != r.semantic[i].questionId
  {
    var candidates := r.OrderedCandidates();
    OrderedBySource(r);
    hide ValidReceipt;
    forall j, x | 0 <= j < |r.semantic| && x in r.lexical ensures r.semantic[j].questionId != x.questionId {
      var l :| 0 <= l < |r.lexical| && r.lexical[l] == x;
      assert candidates[j].QuestionId() != candidates[|r.semantic| + l].QuestionId();
    }
    forall i, j | 0 <= i < |r.semantic| && 0 <= j < i ensures r.semantic[j].questionId != r.semantic[i].questionId {
      assert candidates[j].QuestionId() != candidates[i].QuestionId();
    }
  }

  lemma OrderedBySource(r: Receipt)
    requires ValidReceipt(r)
    ensures
      var candidates := r.OrderedCandidates();
      |candidates| == |r.semantic| + |r.lexical| && DistinctCandidates(candidates) &&
      (forall i :: 0 <= i < |r.semantic| ==> candidates[i] == Semantic(r.semantic[i])) &&
      (forall i :: 0 <= i < |r.lexical| ==> candidates[|r.semantic| + i] == Lexical(r.lexical[i]))
  {
    var candidates, ids := r.OrderedCandidates(), CandidateIds(r.semantic, r.lexical);
    DistinctIndices(ids);
    hide Distinct, OrderedBySemanticScore, OrderedByLexicalScore;
    forall i | 0 <= i < |candidates| ensures candidates[i].QuestionId() == ids[i] {
    }
  }
}
