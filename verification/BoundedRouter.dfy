// TaskRouter.route_v2: one fresh receipt, one budget, one accepted packet.

module BoundedRouter {
  import opened Common
  import opened AtlasModels
  import opened SemanticRoute
  import opened RouteGraph
  import opened RouteRun
  import opened RouteInvariant
  import opened RouteTheorems
  import opened RoutePacket
  import opened RouteStages
  import opened BudgetedSelection

  datatype RouteError = RouteBlankQuery | RouteQueryTooLong | RouteInvalidReceipt | RouteStaleReceipt | RoutePacketRejected

  // What the pass selects: nothing for an abstaining or empty receipt.
  function SelectionFor(m: ManifestData, b: RouteBudget, receipt: Receipt): Selection {
    if receipt.decision == Abstained || receipt.OrderedCandidates() == [] then NothingSelected
    else Run(m, b, receipt.OrderedCandidates())
  }

  function StatusFor(m: ManifestData, b: RouteBudget, receipt: Receipt): RouteStatus {
    if receipt.decision == Abstained || receipt.OrderedCandidates() == [] then StatusNoMatch
    else if SeedIds(SelectionFor(m, b, receipt).trace) == {} then StatusBudgetExceeded
    else StatusRouted
  }

  // ---------------------------------------------------- seed entries are valid

  predicate ValidSeeds(candidates: seq<Candidate>) {
    forall c :: c in candidates ==> ValidEntry(TraceEntry(Key(QuestionKind, c.QuestionId()), SeedOrigin(c)))
  }

  lemma ReceiptSeedsAreValid(r: Receipt)
    requires ValidReceipt(r)
    ensures ValidSeeds(r.OrderedCandidates())
  {
    var all := r.OrderedCandidates();
    forall c | c in all ensures ValidEntry(TraceEntry(Key(QuestionKind, c.QuestionId()), SeedOrigin(c))) {
      var i :| 0 <= i < |all| && all[i] == c;
      if i < |r.semantic| { assert c == Semantic(r.semantic[i]); }
      else { assert c == Lexical(r.lexical[i - |r.semantic|]) && r.lexical[i - |r.semantic|] in r.lexical; }
    }
  }

  predicate ValidEntries(trace: seq<TraceEntry>) {
    forall e :: e in trace ==> ValidEntry(e)
  }

  lemma AdmitEntries(m: ManifestData, b: Limits, s: Selection, k: Key, origin: Origin)
    requires ValidEntries(s.trace) && (origin.FromSeed? ==> k.kind == QuestionKind && ValidEntry(TraceEntry(k, origin)))
    ensures ValidEntries(Admit(m, b, s, k, origin).trace)
  {
    CommitAppends(s.trace, Needs(m, k), origin);
    NeedsElems(m, k);
  }

  lemma {:induction false} SeedEntries(m: ManifestData, b: Limits, s: Selection, candidates: seq<Candidate>)
    requires ValidEntries(s.trace) && ValidSeeds(candidates)
    ensures ValidEntries(AdmitSeeds(m, b, s, candidates).trace)
    decreases |candidates|
  {
    if candidates != [] {
      var k := Key(QuestionKind, candidates[0].QuestionId());
      assert candidates[0] in candidates;
      AdmitEntries(m, b, s, k, SeedOrigin(candidates[0]));
      SeedEntries(m, b, Admit(m, b, s, k, SeedOrigin(candidates[0])), candidates[1..]);
    }
  }

  lemma {:induction false} WorkEntries(m: ManifestData, b: Limits, s: Selection, work: seq<Key>, linked: set<Id>)
    requires ValidEntries(s.trace)
    ensures ValidEntries(AdmitAll(m, b, s, work, linked).trace)
    decreases |work|
  {
    if work != [] {
      var parent := LinkedParent(m, s.trace, work[0], linked);
      AdmitEntries(m, b, s, work[0], FromParent(if parent.Some? then parent.value else work[0]));
      WorkEntries(m, b, AdmitLinked(m, b, s, work[0], linked), work[1..], linked);
    }
  }

  lemma {:induction false} RelationEntries(m: ManifestData, b: Limits, s: Selection, work: seq<Key>)
    requires ValidEntries(s.trace)
    ensures ValidEntries(AdmitRelations(m, b, s, work).trace)
    decreases |work|
  {
    if work != [] {
      if HypothesisRefs(m, work[0]) != [] {
        AdmitEntries(m, b, s, work[0], FromParent(Key(HypothesisKind, HypothesisRefs(m, work[0])[0])));
      }
      RelationEntries(m, b, AdmitRelation(m, b, s, work[0]), work[1..]);
    }
  }

  lemma RunEntries(m: ManifestData, b: Limits, candidates: seq<Candidate>)
    requires ValidSeeds(candidates)
    ensures ValidEntries(Run(m, b, candidates).trace)
  {
    var s := AdmitSeeds(m, b, NothingSelected, candidates);
    var seeds := SeedIds(s.trace);
    var first := FirstLayer(m, b, s);
    var linked := OfKind(Held(first.trace), HypothesisKind);
    var events := AdmitAll(m, b, first, Work(m, TimelineKind, seeds, linked), linked);
    var gaps := AdmitAll(m, b, events, Work(m, GapKind, seeds, linked), linked);
    SeedEntries(m, b, NothingSelected, candidates);
    WorkEntries(m, b, s, Work(m, HypothesisKind, seeds, {}), {});
    WorkEntries(m, b, first, Work(m, TimelineKind, seeds, linked), linked);
    WorkEntries(m, b, events, Work(m, GapKind, seeds, linked), linked);
    RelationEntries(m, b, gaps, Listed(m, RelationKind));
  }

  // ---------------------------------------------------------- status fits

  lemma SeedsMakeStatus(m: ManifestData, b: Limits, candidates: seq<Candidate>)
    requires References(m) && KnownCandidates(m, candidates) && candidates != []
    ensures var t := Run(m, b, candidates);
            if SeedIds(t.trace) == {} then t.trace == [] && t.omissions != [] else true
    ensures SeedIds(Run(m, b, candidates).trace) == SeedIds(AdmitSeeds(m, b, NothingSelected, candidates).trace)
  {
    var s := AdmitSeeds(m, b, NothingSelected, candidates);
    NothingSelectedInv(m, b);
    SeedsSettle(m, b, NothingSelected, candidates);
    if SeedIds(s.trace) != {} {
      ExpandKeepsInv(m, b, s);
    } else {
      OnlySeeds(m, b, NothingSelected, candidates);
      if s.trace != [] { SomeSeed(s.trace); }
      CandidateKeysCons(candidates);
      assert Settled(s, Key(QuestionKind, candidates[0].QuestionId()));
    }
  }

  lemma SomeSeed(trace: seq<TraceEntry>)
    requires trace != [] && forall e :: e in trace ==> e.origin.FromSeed?
    ensures SeedIds(trace) != {}
  {
    assert trace[0].key.id in SeedIds(trace);
  }

  lemma {:induction false} OnlySeeds(m: ManifestData, b: Limits, s: Selection, candidates: seq<Candidate>)
    requires forall e :: e in s.trace ==> e.origin.FromSeed?
    ensures forall e :: e in AdmitSeeds(m, b, s, candidates).trace ==> e.origin.FromSeed?
    decreases |candidates|
  {
    if candidates != [] {
      var k := Key(QuestionKind, candidates[0].QuestionId());
      CommitAppends(s.trace, Needs(m, k), SeedOrigin(candidates[0]));
      OnlySeeds(m, b, Admit(m, b, s, k, SeedOrigin(candidates[0])), candidates[1..]);
    }
  }

  lemma FreshCandidatesAreKnown(r: Receipt, m: Manifest, manifestHash: string, query: string, host: Host)
    requires FreshFor(r, m, manifestHash, query, host)
    ensures KnownCandidates(m, r.OrderedCandidates())
  {
    ListedIdsAreKnown(m);
  }

  // Every fresh receipt and budget lead to a packet that both validators accept,
  // provided the query has at most 128 distinct terms; otherwise the packet's own
  // field bound refuses it.
  lemma SelectedPacketAccepted(
    m: Manifest, b: RouteBudget, query: string, terms: set<string>, manifestHash: string, receipt: Receipt)
    requires ValidReceipt(receipt) && KnownCandidates(m, receipt.OrderedCandidates())
    requires 0 < |query| <= MAX_QUERY_LENGTH
    ensures Accepted(BuildPacket(m, b, query, terms, manifestHash, StatusFor(m, b, receipt), SelectionFor(m, b, receipt)))
       <==> |terms| <= MAX_QUERY_TERMS
  {
    var s := SelectionFor(m, b, receipt);
    NothingSelectedInv(m, b);
    RunKeepsInv(m, b, receipt.OrderedCandidates());
    ReceiptSeedsAreValid(receipt);
    RunEntries(m, b, receipt.OrderedCandidates());
    if receipt.OrderedCandidates() != [] { SeedsMakeStatus(m, b, receipt.OrderedCandidates()); }
    assert StatusFits(StatusFor(m, b, receipt), s);
    BuiltPacketAccepted(m, b, query, terms, manifestHash, StatusFor(m, b, receipt), s);
  }

  // ---------------------------------------------------------------- route_v2

  lemma CandidateIsFresh(m: ManifestData, receipt: Receipt, held: set<Key>, i: nat)
    requires ValidReceipt(receipt) && i < |receipt.OrderedCandidates()|
    requires held <= CandidateKeys(receipt.OrderedCandidates()[..i])
    ensures Key(QuestionKind, receipt.OrderedCandidates()[i].QuestionId()) !in held
  {
    var all, ids := receipt.OrderedCandidates(), CandidateIds(receipt.semantic, receipt.lexical);
    DistinctIndices(ids);
    assert |all| == |ids| && forall j :: 0 <= j < |all| ==> all[j].QuestionId() == ids[j];
  }

  method AdmitCandidates(selection: BudgetedRouteSelection, receipt: Receipt)
    requires selection.Valid() && selection.View() == NothingSelected
    requires References(selection.manifest) && ValidReceipt(receipt)
    requires KnownCandidates(selection.manifest, receipt.OrderedCandidates())
    modifies selection
    ensures selection.Valid()
    ensures selection.View() ==
            AdmitSeeds(selection.manifest, selection.budget, NothingSelected, receipt.OrderedCandidates())
  {
    hide References, ValidReceipt, KnownCandidates, Known, AdmitSeeds, Admit, Held, EvidenceOf, SourcesOf, Project;
    var all := receipt.OrderedCandidates();
    ghost var m, b := selection.manifest, selection.budget;
    AdmitNoSeeds(m, b);
    for i := 0 to |all|
      invariant selection.Valid() && selection.View() == AdmitSeeds(m, b, NothingSelected, all[..i])
    {
      NextCandidate(m, b, receipt, i);
      AdmitSeedsSnoc(m, b, NothingSelected, all[..i], all[i]);
      assert all[..i + 1] == all[..i] + [all[i]];
      selection.AdmitSeed(all[i]);
    }
    assert all[..|all|] == all;
  }

  lemma NextCandidate(m: ManifestData, b: Limits, receipt: Receipt, i: nat)
    requires References(m) && ValidReceipt(receipt) && KnownCandidates(m, receipt.OrderedCandidates())
    requires i < |receipt.OrderedCandidates()|
    ensures var all := receipt.OrderedCandidates();
            var k := Key(QuestionKind, all[i].QuestionId());
            Known(m, k) && k !in Held(AdmitSeeds(m, b, NothingSelected, all[..i]).trace)
  {
    var all := receipt.OrderedCandidates();
    NothingSelectedInv(m, b);
    assert all[i] in all;
    SeedsSettle(m, b, NothingSelected, all[..i]);
    NothingHeld();
    CandidateIsFresh(m, receipt, Held(AdmitSeeds(m, b, NothingSelected, all[..i]).trace), i);
  }

  lemma AdmitNoSeeds(m: ManifestData, b: Limits)
    ensures AdmitSeeds(m, b, NothingSelected, []) == NothingSelected
  {
  }

  lemma NothingHeld()
    ensures Held(NothingSelected.trace) == {}
  {
  }

  method RouteV2(m: Manifest, manifestHash: string, query: string, receipt: Receipt, budget: RouteBudget, host: Host)
    returns (r: Result<Packet, RouteError>)
    ensures
      var normalized := host.normalizeQuery(query);
      (r.Ok? <==>
        0 < |normalized| <= MAX_QUERY_LENGTH && ValidReceipt(receipt) &&
        FreshFor(receipt, m, manifestHash, normalized, host) && |host.terms(normalized)| <= MAX_QUERY_TERMS) &&
      (r.Ok? ==>
        Accepted(r.value) &&
        r.value == BuildPacket(m, budget, normalized, host.terms(normalized), manifestHash,
                               StatusFor(m, budget, receipt), SelectionFor(m, budget, receipt))) &&
      (r.Err? ==>
        r.error ==
        if |normalized| == 0 then RouteBlankQuery
        else if |normalized| > 4_000 then RouteQueryTooLong
        else if !ValidReceipt(receipt) then RouteInvalidReceipt
        else if !FreshFor(receipt, m, manifestHash, normalized, host) then RouteStaleReceipt
        else RoutePacketRejected)
  {
    hide References, Inv, Held, EvidenceOf, SourcesOf, Project, Accepted, ValidReceipt, FreshFor, BuildPacket, Run, AdmitSeeds, Expand;
    var normalized := host.normalizeQuery(query);
    if normalized == "" { return Err(RouteBlankQuery); }
    if |normalized| > MAX_QUERY_LENGTH { return Err(RouteQueryTooLong); }
    if !ValidReceipt(receipt) { return Err(RouteInvalidReceipt); }
    if !FreshFor(receipt, m, manifestHash, normalized, host) { return Err(RouteStaleReceipt); }
    var terms := host.terms(normalized);
    FreshCandidatesAreKnown(receipt, m, manifestHash, normalized, host);
    SelectedPacketAccepted(m, budget, normalized, terms, manifestHash, receipt);
    var selection := new BudgetedRouteSelection(m, budget);
    var status := StatusNoMatch;
    if receipt.decision != Abstained && receipt.OrderedCandidates() != [] {
      RunCases(m, budget, receipt.OrderedCandidates());
      ManifestFacts(m);
      AdmitCandidates(selection, receipt);
      HeldHypotheses(selection.trace);
      if selection.seedQuestionIds == {} {
        status := StatusBudgetExceeded;
      } else {
        SeedStage(m, budget, receipt.OrderedCandidates());
        selection.ExpandGraph();
        status := StatusRouted;
      }
    }
    var packet := BuildPacket(m, budget, normalized, terms, manifestHash, status, Selection(selection.trace, selection.omissions));
    if !Accepted(packet) { return Err(RoutePacketRejected); }
    return Ok(packet);
  }

  lemma ManifestFacts(m: Manifest)
    ensures References(m) && UniqueIds(m)
  {
  }

  lemma RunCases(m: ManifestData, b: Limits, candidates: seq<Candidate>)
    requires References(m) && KnownCandidates(m, candidates) && candidates != []
    ensures var s := AdmitSeeds(m, b, NothingSelected, candidates);
            Run(m, b, candidates) == (if SeedIds(s.trace) == {} then s else Expand(m, b, s)) &&
            SeedIds(Run(m, b, candidates).trace) == SeedIds(s.trace)
  {
    SeedsMakeStatus(m, b, candidates);
  }

  lemma SeedStage(m: ManifestData, b: Limits, candidates: seq<Candidate>)
    requires References(m) && KnownCandidates(m, candidates)
    ensures var s := AdmitSeeds(m, b, NothingSelected, candidates);
            Stage(m, b, s, SeedIds(s.trace), {}) &&
            Lacks(s.trace, TimelineKind) && Lacks(s.trace, GapKind) && Lacks(s.trace, RelationKind)
  {
    NothingSelectedInv(m, b);
    SeedsSettle(m, b, NothingSelected, candidates);
    NothingHeld();
  }

  // ------------------------------------------------ the bound that can fail

  function Digit(n: nat): char
    requires n < 10
  {
    ['0', '1', '2', '3', '4', '5', '6', '7', '8', '9'][n]
  }

  function ThreeDigits(n: nat): string
    requires n < 1000
  {
    [Digit(n / 100), Digit(n / 10 % 10), Digit(n % 10)]
  }

  // "100 101 ... 228": 129 different numbers in 515 characters.
  function Numbers(count: nat): string
    requires count <= 129
  {
    if count == 0 then "" else Numbers(count - 1) + (if count == 1 then "" else " ") + ThreeDigits(99 + count)
  }

  function NumberTerms(count: nat): set<string>
    requires count <= 129
  {
    if count == 0 then {} else NumberTerms(count - 1) + {ThreeDigits(99 + count)}
  }

  lemma {:induction false} NumbersMeasure(count: nat)
    requires count <= 129
    ensures |Numbers(count)| == if count == 0 then 0 else 4 * count - 1
    ensures |NumberTerms(count)| == count
  {
    if count > 0 {
      NumbersMeasure(count - 1);
      LaterNumberIsNew(count - 1, 99 + count);
    }
  }

  lemma {:induction false} LaterNumberIsNew(count: nat, n: nat)
    requires count <= 129 && 99 + count < n < 1000
    ensures ThreeDigits(n) !in NumberTerms(count)
  {
    if count > 0 {
      LaterNumberIsNew(count - 1, n);
      DigitsName(n);
      DigitsName(99 + count);
    }
  }

  function DigitValue(c: char): nat {
    if '0' <= c <= '9' then c as nat - '0' as nat else 0
  }

  lemma DigitsName(n: nat)
    requires n < 1000
    ensures var s := ThreeDigits(n); n == 100 * DigitValue(s[0]) + 10 * DigitValue(s[1]) + DigitValue(s[2])
  {
    hide Digit, DigitValue;
    DigitNames(n / 100);
    DigitNames(n / 10 % 10);
    DigitNames(n % 10);
    DecimalParts(n);
  }

  lemma DecimalParts(n: nat)
    ensures n == 100 * (n / 100) + 10 * (n / 10 % 10) + n % 10
  {
    assert n == 10 * (n / 10) + n % 10;
    var tens := n / 10;
    assert tens == 10 * (tens / 10) + tens % 10;
    assert tens / 10 == n / 100;
  }

  lemma DigitNames(n: nat)
    requires n < 10
    ensures DigitValue(Digit(n)) == n
  {
  }

  // A fresh receipt with a valid budget is not enough: this query is well within
  // 4,000 characters, yet no packet for it is accepted.
  lemma ManyTermsAreRefused(
    m: Manifest, b: RouteBudget, manifestHash: string, receipt: Receipt, host: Host)
    requires host.normalizeQuery(Numbers(129)) == Numbers(129) && host.terms(Numbers(129)) == NumberTerms(129)
    requires ValidReceipt(receipt) && FreshFor(receipt, m, manifestHash, Numbers(129), host)
    ensures |Numbers(129)| == 515
    ensures !Accepted(BuildPacket(m, b, Numbers(129), host.terms(Numbers(129)), manifestHash,
                                  StatusFor(m, b, receipt), SelectionFor(m, b, receipt)))
  {
    NumbersMeasure(129);
  }
}
