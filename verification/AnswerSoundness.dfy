// What a pass of the two answer gates guarantees, separately and end to end.

module AnswerSoundness {
  import opened Common
  import opened ClaimEntailment
  import opened AnswerProjection

  // ------------------------------------------------------- the entailment gate

  predicate Acceptable(state: ClaimState, verdict: Verdict) {
    if state == InferenceClaim then Supports(verdict) else verdict == DirectlySupported
  }

  lemma PassesWhenAcceptable(state: ClaimState, verdict: Verdict)
    ensures ClaimDecision(state, verdict) == EntailmentPassed <==> Acceptable(state, verdict)
    ensures ClaimDecision(state, verdict) != EntailmentUnchecked
  {
    match state {
      case SupportedClaim => case QualifiedClaim => case InferenceClaim =>
    }
    match verdict {
      case DirectlySupported => case SupportedInference => case PartlySupported =>
      case UnsupportedVerdict => case Contradicted => case UncertainVerdict =>
    }
  }

  predicate Settles(c: Case, j: Judgment) {
    j.caseId == c.caseId && j.claimId == c.body.claimId && j.spans == [] && Acceptable(c.body.claimState, j.verdict)
  }

  ghost predicate Answered(c: Case, judgments: seq<Judgment>) {
    exists j :: j in judgments && Settles(c, j)
  }

  ghost predicate Belongs(j: Judgment, cases: seq<Case>) {
    exists c :: c in cases && Settles(c, j)
  }

  // The judgments answer the cases one to one, each in a way its claim can accept.
  ghost predicate JudgesEachCase(cases: seq<Case>, judgments: seq<Judgment>) {
    Distinct(Map(JudgmentCase, judgments)) && Distinct(Map(JudgmentClaim, judgments)) &&
    (forall c :: c in cases ==> Answered(c, judgments)) &&
    (forall j :: j in judgments ==> Belongs(j, cases))
  }

  predicate Trusted(h: Host, s: CaseSet, r: Receipt, policy: Policy) {
    r.ref == h.receiptRef(r.body) && r.body.caseSet == s.ref &&
    Pinned(policy.kind, r.body.judge.kind) && Pinned(policy.profileId, r.body.judge.profileId) &&
    Pinned(policy.profileHash, r.body.judge.profileHash) && Pinned(policy.promptHash, r.body.judge.promptHash) &&
    Pinned(policy.rawHash, r.body.judge.rawHash)
  }

  lemma {:induction false} NoCaseErrors(cases: seq<Case>, judgments: seq<Judgment>)
    ensures ErrorsOf(cases, judgments) == [] <==> forall c :: c in cases ==> ErrorsOfCase(c, judgments) == []
  {
    hide ErrorsOfCase;
    if cases != [] {
      NoCaseErrors(cases[..|cases| - 1], judgments);
      assert cases == cases[..|cases| - 1] + [cases[|cases| - 1]];
    }
  }

  lemma {:induction false} NoneDecided(results: seq<CaseResult>, decision: EntailmentDecision)
    ensures ClaimsDecided(results, decision) == [] <==> forall r :: r in results ==> r.decision != decision
  {
    if results != [] {
      NoneDecided(results[1..], decision);
      assert results == [results[0]] + results[1..];
    }
  }

  lemma NoSetErrors(cases: seq<Case>, judgments: seq<Judgment>)
    ensures SetErrors(cases, judgments) == [] <==>
      Distinct(Map(JudgmentCase, judgments)) && Distinct(Map(JudgmentClaim, judgments)) &&
      Elems(Map(JudgmentCase, judgments)) == Elems(Map(CaseKey, cases)) &&
      Elems(Map(JudgmentClaim, judgments)) <= Elems(Map(CaseClaim, cases))
  {
    hide Repeated, Distinct, Elems, Map;
    NothingRepeated(Map(JudgmentCase, judgments));
    NothingRepeated(Map(JudgmentClaim, judgments));
    NothingMissing(Elems(Map(JudgmentCase, judgments)), Elems(Map(CaseKey, cases)));
    NothingMissing(Elems(Map(JudgmentClaim, judgments)), Elems(Map(CaseClaim, cases)));
  }

  lemma NothingMissing(a: set<Id>, b: set<Id>)
    ensures a - b == {} <==> a <= b
    ensures a - b == {} && b - a == {} <==> a == b
  {
    assert forall x :: x in a && x !in b ==> x in a - b;
    assert forall x :: x in b && x !in a ==> x in b - a;
  }

  lemma NoIntegrityErrors(h: Host, s: CaseSet, r: Receipt, policy: Policy)
    ensures IntegrityErrors(h, s, r, policy) == [] <==> Trusted(h, s, r, policy)
  {
    assert r.ref == h.receiptRef(r.body) <==> r.ref.id == h.receiptRef(r.body).id && r.ref.hash == h.receiptRef(r.body).hash;
  }

  // A case without errors and with a passing decision is settled by its judgment.
  lemma CaseSettled(c: Case, judgments: seq<Judgment>)
    requires Distinct(Map(JudgmentCase, judgments))
    ensures
      (ErrorsOfCase(c, judgments) == [] && ResultOfCase(c, judgments).decision == EntailmentPassed) <==>
      Answered(c, judgments)
    ensures forall j :: j in judgments && j.caseId == c.caseId ==> JudgmentFor(judgments, c.caseId) == Some(j)
    ensures ResultOfCase(c, judgments).decision != EntailmentUnchecked
  {
    hide ClaimDecision, Acceptable, Slice;
    forall j | j in judgments && j.caseId == c.caseId ensures JudgmentFor(judgments, c.caseId) == Some(j) {
      FindByKey(JudgmentCase, judgments, j);
    }
    match JudgmentFor(judgments, c.caseId)
    case None =>
    case Some(j) =>
      PassesWhenAcceptable(c.body.claimState, j.verdict);
      AcceptableSupports(c.body.claimState, j.verdict);
  }

  lemma AcceptableSupports(state: ClaimState, verdict: Verdict)
    ensures Acceptable(state, verdict) ==> Supports(verdict)
  {
  }

  lemma ResultsPass(cases: seq<Case>, judgments: seq<Judgment>)
    ensures (forall r :: r in ResultsOf(cases, judgments) ==> r.decision == EntailmentPassed) <==>
            (forall c :: c in cases ==> ResultOfCase(c, judgments).decision == EntailmentPassed)
    ensures (forall r :: r in ResultsOf(cases, judgments) ==> r.decision != EntailmentUnchecked) <==>
            (forall c :: c in cases ==> ResultOfCase(c, judgments).decision != EntailmentUnchecked)
  {
    hide ResultOfCase;
    var results := ResultsOf(cases, judgments);
    forall c | c in cases ensures ResultOfCase(c, judgments) in results {
      var i :| 0 <= i < |cases| && cases[i] == c;
      assert results[i] in results;
    }
    forall r | r in results ensures exists c :: c in cases && r == ResultOfCase(c, judgments) {
      var i :| 0 <= i < |results| && results[i] == r;
      assert cases[i] in cases;
    }
  }

  // Each judgment belongs to a case that it settles.
  lemma JudgmentsHaveCases(cases: seq<Case>, judgments: seq<Judgment>)
    requires Distinct(Map(JudgmentCase, judgments)) && Elems(Map(JudgmentCase, judgments)) == Elems(Map(CaseKey, cases))
    requires forall c :: c in cases ==> Answered(c, judgments)
    ensures forall j :: j in judgments ==> Belongs(j, cases)
  {
    hide Settles;
    MapElems(JudgmentCase, judgments);
    MapElems(CaseKey, cases);
    forall j | j in judgments ensures Belongs(j, cases) {
      assert JudgmentCase(j) in Elems(Map(CaseKey, cases));
      var c :| c in cases && CaseKey(c) == j.caseId;
      var k :| k in judgments && Settles(c, k);
      SettledById(c, k);
      UniqueByIds(judgments, JudgmentCase, j, k);
    }
  }

  lemma SettledById(c: Case, j: Judgment)
    requires Settles(c, j)
    ensures j.caseId == c.caseId && j.claimId == c.body.claimId
  {
  }

  lemma SameKeys<A, B>(f: A -> Id, xs: seq<A>, g: B -> Id, ys: seq<B>)
    requires forall x :: x in xs ==> exists y :: y in ys && g(y) == f(x)
    requires forall y :: y in ys ==> exists x :: x in xs && g(y) == f(x)
    ensures Elems(Map(f, xs)) == Elems(Map(g, ys))
  {
    MapElems(f, xs);
    MapElems(g, ys);
  }

  lemma IdsMatch(cases: seq<Case>, judgments: seq<Judgment>)
    requires forall c :: c in cases ==> Answered(c, judgments)
    requires forall j :: j in judgments ==> Belongs(j, cases)
    ensures Elems(Map(CaseKey, cases)) == Elems(Map(JudgmentCase, judgments))
    ensures Elems(Map(CaseClaim, cases)) == Elems(Map(JudgmentClaim, judgments))
  {
    hide Settles, Elems, Map;
    forall c, j | Settles(c, j) ensures CaseKey(c) == JudgmentCase(j) && CaseClaim(c) == JudgmentClaim(j) {
      SettledById(c, j);
    }
    SameKeys(CaseKey, cases, JudgmentCase, judgments);
    SameKeys(CaseClaim, cases, JudgmentClaim, judgments);
  }

  lemma CasesSettled(cases: seq<Case>, judgments: seq<Judgment>)
    requires Distinct(Map(JudgmentCase, judgments))
    ensures
      ErrorsOf(cases, judgments) == [] && (forall c :: c in cases ==> ResultOfCase(c, judgments).decision == EntailmentPassed) <==>
      forall c :: c in cases ==> Answered(c, judgments)
  {
    hide ErrorsOf, ErrorsOfCase, ResultOfCase, Answered, Map, Distinct;
    NoCaseErrors(cases, judgments);
    forall c | c in cases
      ensures
        (ErrorsOfCase(c, judgments) == [] && ResultOfCase(c, judgments).decision == EntailmentPassed) <==>
        Answered(c, judgments)
    {
      CaseSettled(c, judgments);
    }
  }

  lemma ClosureExactly(cases: seq<Case>, judgments: seq<Judgment>)
    ensures
      SetErrors(cases, judgments) == [] && ErrorsOf(cases, judgments) == [] &&
      (forall c :: c in cases ==> ResultOfCase(c, judgments).decision == EntailmentPassed) <==>
      JudgesEachCase(cases, judgments)
  {
    hide SetErrors, ErrorsOf, ResultOfCase, Answered, Belongs, Elems, Map, Distinct;
    NoSetErrors(cases, judgments);
    if Distinct(Map(JudgmentCase, judgments)) {
      CasesSettled(cases, judgments);
      if forall c :: c in cases ==> Answered(c, judgments) {
        if JudgesEachCase(cases, judgments) { IdsMatch(cases, judgments); }
        if SetErrors(cases, judgments) == [] { JudgmentsHaveCases(cases, judgments); }
      }
    }
  }

  lemma JudgedPasses(s: CaseSet, r: Receipt, results: seq<CaseResult>, errors: seq<Finding>)
    requires forall x :: x in results ==> x.decision != EntailmentUnchecked
    ensures Judged(s, r, results, errors).decision == EntailmentPassed <==>
            errors == [] && forall x :: x in results ==> x.decision == EntailmentPassed
    ensures Judged(s, r, results, errors).cases == results
  {
    NoneDecided(results, EntailmentFailed);
    NoneDecided(results, EntailmentReview);
    forall x | x in results && x.decision != EntailmentFailed && x.decision != EntailmentReview ensures x.decision == EntailmentPassed {
      match x.decision case EntailmentPassed => case EntailmentFailed => case EntailmentReview => case EntailmentUnchecked =>
    }
  }

  lemma DecisionsAreChecked(cases: seq<Case>, judgments: seq<Judgment>)
    ensures forall r :: r in ResultsOf(cases, judgments) ==> r.decision != EntailmentUnchecked
  {
    ResultsPass(cases, judgments);
    forall c ensures ResultOfCase(c, judgments).decision != EntailmentUnchecked {
      match JudgmentFor(judgments, c.caseId) {
        case None =>
        case Some(j) => PassesWhenAcceptable(c.body.claimState, j.verdict);
      }
    }
  }

  // The gate passes exactly when the earlier gates accepted this very answer, the
  // receipt is intact, bound to this case set and within policy, and its judgments
  // answer the cases one to one with verdicts their claims can accept.
  lemma EntailmentPassesExactly(
    h: Host, s: CaseSet, contract: ContractResult, coverage: CoverageResult, receipt: Option<Receipt>, policy: Policy)
    ensures
      EntailmentOutcome(h, s, contract, coverage, receipt, policy).decision == EntailmentPassed <==>
      PrerequisiteError(s, contract, coverage) == None && receipt.Some? &&
      Trusted(h, s, receipt.value, policy) && JudgesEachCase(s.body.cases, receipt.value.body.judgments)
  {
    hide SetErrors, ErrorsOf, IntegrityErrors, Trusted, JudgesEachCase, ResultsOf, Judged, ResultOfCase;
    if receipt.Some? {
      var r := receipt.value;
      var cases, judgments := s.body.cases, r.body.judgments;
      NoIntegrityErrors(h, s, r, policy);
      ClosureExactly(cases, judgments);
      ResultsPass(cases, judgments);
      DecisionsAreChecked(cases, judgments);
      var errors := IntegrityErrors(h, s, r, policy) + SetErrors(cases, judgments) + ErrorsOf(cases, judgments);
      JudgedPasses(s, r, ResultsOf(cases, judgments), errors);
      EmptyConcat(IntegrityErrors(h, s, r, policy), SetErrors(cases, judgments), ErrorsOf(cases, judgments));
    }
  }

  // The verdicts that do not bear a claim out.
  predicate Refutes(state: ClaimState, verdict: Verdict) {
    verdict == PartlySupported || verdict == UnsupportedVerdict || verdict == Contradicted ||
    (state != InferenceClaim && verdict == SupportedInference)
  }

  ghost predicate Refuted(c: Case, judgments: seq<Judgment>) {
    exists j :: j in judgments && j.caseId == c.caseId && Refutes(c.body.claimState, j.verdict)
  }

  // The judgments are one per case, of known claims, each naming its case's claim
  // with no span error.
  ghost predicate WellFormedAnswers(cases: seq<Case>, judgments: seq<Judgment>) {
    Distinct(Map(JudgmentCase, judgments)) && Distinct(Map(JudgmentClaim, judgments)) &&
    Elems(Map(JudgmentCase, judgments)) == Elems(Map(CaseKey, cases)) &&
    Elems(Map(JudgmentClaim, judgments)) <= Elems(Map(CaseClaim, cases)) &&
    forall c :: c in cases ==> ErrorsOfCase(c, judgments) == []
  }

  lemma CaseRefuted(c: Case, judgments: seq<Judgment>)
    requires Distinct(Map(JudgmentCase, judgments))
    ensures ResultOfCase(c, judgments).decision == EntailmentFailed <==> Refuted(c, judgments)
  {
    hide Distinct, Map;
    forall j | j in judgments && j.caseId == c.caseId ensures JudgmentFor(judgments, c.caseId) == Some(j) {
      FindByKey(JudgmentCase, judgments, j);
    }
    match c.body.claimState case SupportedClaim => case QualifiedClaim => case InferenceClaim =>
  }

  lemma {:induction false} DecidedClaims(results: seq<CaseResult>, decision: EntailmentDecision, id: Id)
    ensures id in ClaimsDecided(results, decision) <==> exists r :: r in results && r.claimId == id && r.decision == decision
  {
    if results != [] {
      DecidedClaims(results[1..], decision, id);
      assert results == [results[0]] + results[1..];
    }
  }

  lemma JudgedFails(s: CaseSet, r: Receipt, results: seq<CaseResult>, errors: seq<Finding>)
    ensures Judged(s, r, results, errors).decision == EntailmentFailed <==>
            errors == [] && exists x :: x in results && x.decision == EntailmentFailed
    ensures errors == [] ==> Judged(s, r, results, errors).violations == ClaimsDecided(results, EntailmentFailed)
  {
    hide ClaimsDecided;
    NoneDecided(results, EntailmentFailed);
  }

  lemma RefutedResults(cases: seq<Case>, judgments: seq<Judgment>, id: Id)
    requires Distinct(Map(JudgmentCase, judgments))
    ensures id in ClaimsDecided(ResultsOf(cases, judgments), EntailmentFailed) <==>
            exists c :: c in cases && c.body.claimId == id && Refuted(c, judgments)
  {
    var results := ResultsOf(cases, judgments);
    DecidedClaims(results, EntailmentFailed, id);
    hide ClaimsDecided, Refuted, Distinct;
    forall i | 0 <= i < |cases|
      ensures (results[i].decision == EntailmentFailed <==> Refuted(cases[i], judgments)) && results[i].claimId == cases[i].body.claimId
    {
      CaseRefuted(cases[i], judgments);
      assert results[i] == ResultOfCase(cases[i], judgments);
    }
    hide ResultsOf, ResultOfCase;
    if exists r :: r in results && r.claimId == id && r.decision == EntailmentFailed {
      var i :| 0 <= i < |results| && results[i].claimId == id && results[i].decision == EntailmentFailed;
      assert cases[i] in cases;
    }
    if exists c :: c in cases && c.body.claimId == id && Refuted(c, judgments) {
      var i :| 0 <= i < |cases| && cases[i].body.claimId == id && Refuted(cases[i], judgments);
      assert results[i] in results;
    }
  }

  // The gate fails, rather than asking for review, exactly when nothing is wrong
  // with the receipt and some claim's judgment refutes it; the violations are then
  // those claims.
  lemma EntailmentFailsExactly(
    h: Host, s: CaseSet, contract: ContractResult, coverage: CoverageResult, receipt: Option<Receipt>, policy: Policy)
    ensures
      EntailmentOutcome(h, s, contract, coverage, receipt, policy).decision == EntailmentFailed <==>
      PrerequisiteError(s, contract, coverage) == None && receipt.Some? && Trusted(h, s, receipt.value, policy) &&
      WellFormedAnswers(s.body.cases, receipt.value.body.judgments) &&
      exists c :: c in s.body.cases && Refuted(c, receipt.value.body.judgments)
    ensures
      EntailmentOutcome(h, s, contract, coverage, receipt, policy).decision == EntailmentFailed ==>
      forall id :: id in EntailmentOutcome(h, s, contract, coverage, receipt, policy).violations <==>
        exists c :: c in s.body.cases && c.body.claimId == id && Refuted(c, receipt.value.body.judgments)
  {
    if receipt.Some? && PrerequisiteError(s, contract, coverage) == None {
      ReceiptFailsExactly(h, s, receipt.value, policy);
    }
    hide SetErrors, ErrorsOf, IntegrityErrors, Trusted, WellFormedAnswers, ResultsOf, Judged, Refuted, PrerequisiteError;
  }

  lemma ReceiptFailsExactly(h: Host, s: CaseSet, r: Receipt, policy: Policy)
    ensures
      var cases, judgments := s.body.cases, r.body.judgments;
      var errors := IntegrityErrors(h, s, r, policy) + SetErrors(cases, judgments) + ErrorsOf(cases, judgments);
      var judged := Judged(s, r, ResultsOf(cases, judgments), errors);
      (judged.decision == EntailmentFailed <==>
        Trusted(h, s, r, policy) && WellFormedAnswers(cases, judgments) && exists c :: c in cases && Refuted(c, judgments)) &&
      (judged.decision == EntailmentFailed ==>
        forall id :: id in judged.violations <==> exists c :: c in cases && c.body.claimId == id && Refuted(c, judgments))
  {
    var cases, judgments := s.body.cases, r.body.judgments;
    var results := ResultsOf(cases, judgments);
    var errors := IntegrityErrors(h, s, r, policy) + SetErrors(cases, judgments) + ErrorsOf(cases, judgments);
    NoIntegrityErrors(h, s, r, policy);
    NoSetErrors(cases, judgments);
    NoCaseErrors(cases, judgments);
    EmptyConcat(IntegrityErrors(h, s, r, policy), SetErrors(cases, judgments), ErrorsOf(cases, judgments));
    JudgedFails(s, r, results, errors);
    hide SetErrors, ErrorsOf, ErrorsOfCase, IntegrityErrors, Trusted, ResultsOf, Judged, Refuted, Distinct, Elems, Map, ClaimsDecided;
    if errors == [] {
      forall id ensures id in ClaimsDecided(results, EntailmentFailed) <==>
                        exists c :: c in cases && c.body.claimId == id && Refuted(c, judgments) {
        RefutedResults(cases, judgments, id);
      }
      NoneDecided(results, EntailmentFailed);
      SomeClaim(cases, judgments, ClaimsDecided(results, EntailmentFailed));
    }
  }

  lemma SomeClaim(cases: seq<Case>, judgments: seq<Judgment>, ids: seq<Id>)
    requires forall id :: id in ids <==> exists c :: c in cases && c.body.claimId == id && Refuted(c, judgments)
    ensures ids == [] <==> !exists c :: c in cases && Refuted(c, judgments)
  {
    hide Refuted;
    if ids != [] { assert ids[0] in ids; }
    if c :| c in cases && Refuted(c, judgments) { assert c.body.claimId in ids; }
  }

  lemma EmptyConcat<T>(a: seq<T>, b: seq<T>, c: seq<T>)
    ensures a + b + c == [] <==> a == [] && b == [] && c == []
  {
    assert |a + b + c| == |a| + |b| + |c|;
  }

  // ---------------------------------------------------------- the text findings

  function Concatenated(ps: seq<Proposition>): string {
    if ps == [] then "" else Concatenated(ps[..|ps| - 1]) + ps[|ps| - 1].body.text
  }

  predicate ExactSpans(text: string, ps: seq<Proposition>) {
    forall i :: 0 <= i < |ps| ==> Slice(text, ps[i].body.start, ps[i].body.end) == ps[i].body.text
  }

  lemma {:induction false} NoInexactSpans(text: string, ps: seq<Proposition>)
    ensures InexactSpans(text, ps) == [] <==> ExactSpans(text, ps)
  {
    hide Slice;
    if ps != [] { NoInexactSpans(text, ps[..|ps| - 1]); }
  }

  ghost predicate Shaped(ps: seq<Proposition>) {
    Contiguous(ps) && forall x :: x in ps ==> x.body.start < x.body.end && x.body.end - x.body.start == |x.body.text|
  }

  lemma {:induction false} Lengths(ps: seq<Proposition>)
    requires Shaped(ps)
    ensures |Concatenated(ps)| == ps[|ps| - 1].body.end
  {
    var last := ps[|ps| - 1];
    assert last in ps;
    if |ps| > 1 {
      var front := ps[..|ps| - 1];
      assert front[|front| - 1] == ps[|ps| - 2];
      Lengths(front);
    } else {
      assert ps[..0] == [];
    }
  }

  // Contiguous spans are exact exactly when their texts, joined, are the part of
  // the text that they span.
  lemma {:induction false} SpansConcatenate(text: string, ps: seq<Proposition>)
    requires Shaped(ps)
    ensures ExactSpans(text, ps) && ps[|ps| - 1].body.end <= |text| <==> Concatenated(ps) <= text
  {
    hide Slice;
    Lengths(ps);
    var front, last := ps[..|ps| - 1], ps[|ps| - 1];
    assert last in ps;
    assert ps == front + [last];
    LastSpan(text, last.body.start, last.body.end, last.body.text);
    if |ps| > 1 {
      assert front[|front| - 1] == ps[|ps| - 2];
      SpansConcatenate(text, front);
      Lengths(front);
      PrefixSplits(Concatenated(front), last.body.text, text);
    } else {
      assert front == [] && last.body.start == 0;
      PrefixSplits("", last.body.text, text);
    }
  }

  lemma LastSpan(text: string, start: nat, end: nat, s: string)
    requires start < end && end - start == |s|
    ensures Slice(text, start, end) == s ==> end <= |text|
    ensures Slice(text, start, end) == s <==> end <= |text| && text[start..end] == s
  {
  }

  lemma PrefixSplits(a: string, b: string, text: string)
    ensures a + b <= text <==> a <= text && |a| + |b| <= |text| && text[|a|..|a| + |b|] == b
  {
    if |a| + |b| <= |text| {
      var n, m := |a|, |a| + |b|;
      assert text[..m] == text[..n] + text[n..m];
      JoinSplits(a, b, text[..n], text[n..m]);
      assert a + b <= text <==> a + b == text[..m];
      assert a <= text <==> a == text[..n];
    }
  }

  lemma JoinSplits(a: string, b: string, x: string, y: string)
    requires |a| == |x| && |b| == |y|
    ensures a + b == x + y <==> a == x && b == y
  {
    if a + b == x + y {
      assert a == (a + b)[..|a|] && x == (x + y)[..|x|];
      assert b == (a + b)[|a|..] && y == (x + y)[|x|..];
    }
  }

  // The text checks pass exactly when the propositions' texts concatenate to the
  // displayed answer.
  lemma TextPassesExactly(a: Answer, p: Projection)
    ensures TextFindings(a, p) == [] <==> Concatenated(p.body.propositions) == a.shortAnswer
  {
    assert Shaped(p.body.propositions);
    SpansCover(a.shortAnswer, p.body.propositions);
  }

  lemma SpansCover(text: string, ps: seq<Proposition>)
    requires Shaped(ps)
    ensures InexactSpans(text, ps) == [] && ps[|ps| - 1].body.end == |text| <==> Concatenated(ps) == text
  {
    hide InexactSpans, ExactSpans, Shaped, Concatenated;
    NoInexactSpans(text, ps);
    SpansConcatenate(text, ps);
    Lengths(ps);
    assert Concatenated(ps) <= text && |Concatenated(ps)| == |text| <==> Concatenated(ps) == text;
  }

  // ------------------------------------------------------- the projection gate

  predicate PremiseHolds(kind: PropositionKind, a: Answer, outcomes: seq<CaseResult>, id: Id) {
    PremiseFindings(kind, a, outcomes, id) == Findings([], [])
  }

  // A span closes: its role was confirmed and every premise route holds.
  predicate Closes(a: Answer, e: EntailmentResult, judgments: seq<RoleJudgment>, p: Proposition) {
    VerdictOf(judgments, p.propositionId) == RoleOf(p.body.kind) &&
    forall id :: id in p.body.claimIds ==> PremiseHolds(p.body.kind, a, e.cases, id)
  }

  lemma {:induction false} NoPremiseFindings(kind: PropositionKind, a: Answer, outcomes: seq<CaseResult>, ids: seq<Id>)
    ensures PremisesFindings(kind, a, outcomes, ids) == Findings([], []) <==>
            forall id :: id in ids ==> PremiseHolds(kind, a, outcomes, id)
  {
    hide PremiseFindings, ValidAnswer;
    if ids != [] {
      var front, last := ids[..|ids| - 1], ids[|ids| - 1];
      NoPremiseFindings(kind, a, outcomes, front);
      assert ids == front + [last];
      assert PremisesFindings(kind, a, outcomes, ids) ==
             Both(PremisesFindings(kind, a, outcomes, front), PremiseFindings(kind, a, outcomes, last));
      assert (forall id :: id in ids ==> PremiseHolds(kind, a, outcomes, id)) <==>
             (forall id :: id in front ==> PremiseHolds(kind, a, outcomes, id)) && PremiseHolds(kind, a, outcomes, last);
      NoneInBoth(PremisesFindings(kind, a, outcomes, front), PremiseFindings(kind, a, outcomes, last));
    }
  }

  lemma NoneInBoth(x: Findings, y: Findings)
    ensures Both(x, y) == Findings([], []) <==> x == Findings([], []) && y == Findings([], [])
  {
    assert |x.violations + y.violations| == |x.violations| + |y.violations|;
    assert |x.review + y.review| == |x.review| + |y.review|;
  }

  lemma NoFindings(a: Answer, e: EntailmentResult, judgments: seq<RoleJudgment>, p: Proposition)
    requires ValidProposition(p.body)
    ensures FindingsFor(a, e, judgments, p) == Findings([], []) <==> Closes(a, e, judgments, p)
  {
    hide PremisesFindings, PremiseHolds, ValidAnswer, VerdictOf;
    NoPremiseFindings(p.body.kind, a, e.cases, p.body.claimIds);
  }

  lemma {:induction false} NothingReported(a: Answer, e: EntailmentResult, judgments: seq<RoleJudgment>, ps: seq<Proposition>)
    requires forall p :: p in ps ==> ValidProposition(p.body)
    ensures AllViolations(a, e, judgments, ps) == [] && AllReasons(a, e, judgments, ps) == [] <==>
            forall p :: p in ps ==> Closes(a, e, judgments, p)
  {
    hide Closes, FindingsFor, ValidAnswer, ValidProposition;
    if ps != [] {
      var front, last := ps[..|ps| - 1], ps[|ps| - 1];
      assert ps == front + [last];
      NothingReported(a, e, judgments, front);
      NoFindings(a, e, judgments, last);
      var f := FindingsFor(a, e, judgments, last);
      assert f == Findings([], []) <==> f.violations == [] && f.review == [];
      assert |RouteViolations(last.propositionId, f.violations)| == |f.violations|;
      assert |RouteReasons(last.propositionId, f.review)| == |f.review|;
    }
  }

  predicate RolesTrusted(d: Addresses, p: Projection, r: RoleReceipt, policy: Policy) {
    r.ref == d.roleReceiptRef(r.body) && r.body.projection == p.ref &&
    Distinct(Map(RoleKey, r.body.judgments)) &&
    Elems(Map(RoleKey, r.body.judgments)) == Elems(Map(PropositionKey, p.body.propositions)) &&
    Pinned(policy.kind, r.body.judge.kind) && Pinned(policy.profileId, r.body.judge.profileId) &&
    Pinned(policy.profileHash, r.body.judge.profileHash) && Pinned(policy.promptHash, r.body.judge.promptHash) &&
    Pinned(policy.rawHash, r.body.judge.rawHash)
  }

  lemma RolesPassExactly(d: Addresses, p: Projection, receipt: Option<RoleReceipt>, policy: Policy)
    ensures RoleFindings(d, p, receipt, policy) == [] <==> receipt.Some? && RolesTrusted(d, p, receipt.value, policy)
  {
    hide Distinct, Elems, Map;
    if receipt.Some? {
      var r := receipt.value;
      assert r.ref == d.roleReceiptRef(r.body) <==>
             r.ref.id == d.roleReceiptRef(r.body).id && r.ref.hash == d.roleReceiptRef(r.body).hash;
    }
  }

  // The answer may be displayed exactly when the projection is bound to this
  // answer and its passed entailment, its texts concatenate to the displayed
  // answer, every role was judged once by a trusted receipt, and every span closes.
  lemma DisplayPassesExactly(
    h: Host, d: Addresses, a: Answer, s: CaseSet, e: EntailmentResult, p: Projection,
    receipt: Option<RoleReceipt>, policy: Policy)
    ensures
      ProjectionOutcome(h, d, a, s, e, p, receipt, policy).decision == ProjectionPassed <==>
      BindingFindings(h, d, a, s, e, p) == [] && Concatenated(p.body.propositions) == a.shortAnswer &&
      receipt.Some? && RolesTrusted(d, p, receipt.value, policy) &&
      forall x :: x in p.body.propositions ==> Closes(a, e, receipt.value.body.judgments, x)
  {
    assert forall x :: x in p.body.propositions ==> ValidProposition(x.body);
    hide BindingFindings, TextFindings, RoleFindings, RolesTrusted, Closes, AllViolations, AllReasons, ValidAnswer,
         ValidProjection, Concatenated, ValidProposition;
    TextPassesExactly(a, p);
    RolesPassExactly(d, p, receipt, policy);
    if receipt.Some? { NothingReported(a, e, receipt.value.body.judgments, p.body.propositions); }
  }

  // ---------------------------------------------------------------- end to end

  lemma {:induction false} ClaimHasCase(h: Host, a: Answer, packet: PacketData, claims: seq<Claim>, claim: Claim)
    requires CasesFor(h, a, packet, claims).Ok? && claim in claims
    ensures exists c :: c in CasesFor(h, a, packet, claims).value &&
              c.body.claimId == claim.claimId && c.body.claimText == claim.text && c.body.claimState == claim.state &&
              Joined(a, packet, claim.claimId, claim.evidenceIds) == Ok(c.body.citations)
  {
    hide Joined, ValidAnswer;
    CasesMirrorClaims(h, a, packet, claims);
    var i :| 0 <= i < |claims| && claims[i] == claim;
    assert CasesFor(h, a, packet, claims).value[i] in CasesFor(h, a, packet, claims).value;
  }

  // The one judgment behind a premise.
  ghost predicate JudgedOnce(judgments: seq<Judgment>, claim: Claim, j: Judgment) {
    j in judgments && j.claimId == claim.claimId && multiset(Map(JudgmentClaim, judgments))[claim.claimId] == 1 &&
    j.spans == [] && Acceptable(claim.state, j.verdict)
  }

  // The judgment was given on a case that shows the claim's own words and exactly
  // the quotations the answer cites for it.
  ghost predicate JudgedOnItsQuotes(a: Answer, packet: PacketData, cases: seq<Case>, claim: Claim, j: Judgment) {
    exists c :: c in cases && c.caseId == j.caseId && c.body.claimText == claim.text &&
                Joined(a, packet, claim.claimId, claim.evidenceIds) == Ok(c.body.citations)
  }

  lemma ClaimIsJudgedOnce(h: Host, a: Answer, packet: PacketData, cases: seq<Case>, judgments: seq<Judgment>, claim: Claim)
    returns (j: Judgment)
    requires CasesFor(h, a, packet, a.claims) == Ok(cases) && claim in a.claims && JudgesEachCase(cases, judgments)
    ensures JudgedOnce(judgments, claim, j) && JudgedOnItsQuotes(a, packet, cases, claim, j)
  {
    hide Joined, ValidAnswer, Acceptable, Distinct, Settles, CasesFor, Map;
    ClaimHasCase(h, a, packet, a.claims, claim);
    var c :| c in cases && c.body.claimId == claim.claimId && c.body.claimText == claim.text &&
             c.body.claimState == claim.state && Joined(a, packet, claim.claimId, claim.evidenceIds) == Ok(c.body.citations);
    j :| j in judgments && Settles(c, j);
    SettledState(c, j, claim);
    CountedOnce(judgments, j);
  }

  lemma SettledState(c: Case, j: Judgment, claim: Claim)
    requires Settles(c, j) && c.body.claimState == claim.state && c.body.claimId == claim.claimId
    ensures j.caseId == c.caseId && j.claimId == claim.claimId && j.spans == [] && Acceptable(claim.state, j.verdict)
  {
  }

  lemma CountedOnce(judgments: seq<Judgment>, j: Judgment)
    requires Distinct(Map(JudgmentClaim, judgments)) && j in judgments
    ensures multiset(Map(JudgmentClaim, judgments))[j.claimId] == 1
  {
    hide Distinct;
    DistinctMultiset(Map(JudgmentClaim, judgments));
    var i :| 0 <= i < |judgments| && judgments[i] == j;
    assert Map(JudgmentClaim, judgments)[i] == j.claimId;
    assert j.claimId in Elems(Map(JudgmentClaim, judgments));
  }

  // What the projection gate looks up for a claim is that judgment's verdict.
  lemma OutcomeIsTheJudgment(
    h: Host, a: Answer, packet: PacketData, cases: seq<Case>, judgments: seq<Judgment>, claim: Claim, j: Judgment)
    requires CasesFor(h, a, packet, a.claims) == Ok(cases) && claim in a.claims && JudgesEachCase(cases, judgments)
    requires UniqueBy(cases, CaseClaim) && JudgedOnce(judgments, claim, j)
    ensures
      var found := OutcomeFor(ResultsOf(cases, judgments), claim.claimId);
      found.Some? && found.value.decision == EntailmentPassed && found.value.verdict == Some(j.verdict)
    ensures FindBy(ClaimKey, a.claims, claim.claimId) == Some(claim)
  {
    FindByKey(ClaimKey, a.claims, claim);
    hide Joined, ValidAnswer, Acceptable, Distinct, JudgedOnce, CasesFor, Settles, Map, FindBy, OutcomeFor, ResultOfCase;
    ClaimHasCase(h, a, packet, a.claims, claim);
    var c :| c in cases && c.body.claimId == claim.claimId && c.body.claimState == claim.state;
    var m :| m in judgments && Settles(c, m);
    SettledById(c, m);
    SameJudgment(judgments, claim, j, m);
    OutcomeOfCase(cases, judgments, c, j);
  }

  lemma OutcomeOfCase(cases: seq<Case>, judgments: seq<Judgment>, c: Case, j: Judgment)
    requires UniqueBy(cases, CaseClaim) && c in cases && j in judgments && Settles(c, j)
    requires Distinct(Map(JudgmentCase, judgments))
    ensures
      var found := OutcomeFor(ResultsOf(cases, judgments), c.body.claimId);
      found.Some? && found.value.decision == EntailmentPassed && found.value.verdict == Some(j.verdict)
  {
    hide ResultOfCase, UniqueBy, OutcomeFor, Map, Distinct;
    var results := ResultsOf(cases, judgments);
    OutcomesUnique(cases, judgments);
    var i :| 0 <= i < |cases| && cases[i] == c;
    assert results[i] in results && OutcomeKey(results[i]) == c.body.claimId;
    OneOutcome(results, results[i]);
    ResultWhenSettled(c, judgments, j);
  }

  lemma ResultWhenSettled(c: Case, judgments: seq<Judgment>, j: Judgment)
    requires j in judgments && Settles(c, j) && Distinct(Map(JudgmentCase, judgments))
    ensures ResultOfCase(c, judgments).decision == EntailmentPassed && ResultOfCase(c, judgments).verdict == Some(j.verdict)
  {
    hide Distinct, ClaimDecision, Acceptable;
    FindByKey(JudgmentCase, judgments, j);
    PassesWhenAcceptable(c.body.claimState, j.verdict);
  }

  lemma OutcomesUnique(cases: seq<Case>, judgments: seq<Judgment>)
    requires UniqueBy(cases, CaseClaim)
    ensures UniqueBy(ResultsOf(cases, judgments), OutcomeKey)
    ensures forall i :: 0 <= i < |cases| ==> ResultsOf(cases, judgments)[i].claimId == cases[i].body.claimId
  {
    var results := ResultsOf(cases, judgments);
    forall i | 0 <= i < |cases| ensures results[i].claimId == cases[i].body.claimId {
      assert results[i] == ResultOfCase(cases[i], judgments);
    }
    assert Map(OutcomeKey, results) == Map(CaseClaim, cases);
  }

  lemma SameJudgment(judgments: seq<Judgment>, claim: Claim, j: Judgment, k: Judgment)
    requires JudgedOnce(judgments, claim, j) && k in judgments && k.claimId == claim.claimId
    requires Distinct(Map(JudgmentClaim, judgments))
    ensures j == k
  {
    UniqueByIds(judgments, JudgmentClaim, j, k);
  }

  // After a passed entailment a premise can fail for two reasons only: the answer
  // has no such claim, or a fact rests on an inference.
  lemma PremiseFailsOnlyThus(
    h: Host, a: Answer, packet: PacketData, cases: seq<Case>, judgments: seq<Judgment>, kind: PropositionKind, id: Id)
    requires CasesFor(h, a, packet, a.claims) == Ok(cases) && JudgesEachCase(cases, judgments) && UniqueBy(cases, CaseClaim)
    ensures PremiseHolds(kind, a, ResultsOf(cases, judgments), id) <==>
            exists claim :: claim in a.claims && claim.claimId == id && (kind == Fact ==> claim.state != InferenceClaim)
  {
    hide ValidAnswer, JudgesEachCase, UniqueBy, ResultsOf, CasesFor;
    match FindBy(ClaimKey, a.claims, id)
    case None =>
    case Some(claim) =>
      var j := ClaimIsJudgedOnce(h, a, packet, cases, judgments, claim);
      OutcomeIsTheJudgment(h, a, packet, cases, judgments, claim, j);
      AcceptableSupports(claim.state, j.verdict);
      forall other | other in a.claims && other.claimId == id ensures other == claim {
        AnswerClaimsUnique(a, other, claim);
      }
      match claim.state case SupportedClaim => case QualifiedClaim => case InferenceClaim =>
  }

  lemma AnswerClaimsUnique(a: Answer, x: Claim, y: Claim)
    requires x in a.claims && y in a.claims && x.claimId == y.claimId
    ensures x == y
  {
    UniqueByIds(a.claims, ClaimKey, x, y);
  }

  // What a displayed proposition rests on.
  ghost predicate Grounded(a: Answer, packet: PacketData, cases: seq<Case>, judgments: seq<Judgment>, p: PropositionBody) {
    (p.kind != Framing ==> p.claimIds != []) &&
    forall id :: id in p.claimIds ==> exists claim, j ::
      claim in a.claims && claim.claimId == id && JudgedOnce(judgments, claim, j) &&
      JudgedOnItsQuotes(a, packet, cases, claim, j) &&
      (p.kind == Fact ==> claim.state != InferenceClaim && j.verdict == DirectlySupported)
  }

  lemma ClosedIsGrounded(
    h: Host, a: Answer, packet: PacketData, cases: seq<Case>, judgments: seq<Judgment>, p: PropositionBody)
    requires CasesFor(h, a, packet, a.claims) == Ok(cases) && JudgesEachCase(cases, judgments) && UniqueBy(cases, CaseClaim)
    requires ValidProposition(p)
    requires forall id :: id in p.claimIds ==> PremiseHolds(p.kind, a, ResultsOf(cases, judgments), id)
    ensures Grounded(a, packet, cases, judgments, p)
  {
    assert p.kind != Framing ==> p.claimIds != [];
    hide ValidAnswer, JudgesEachCase, UniqueBy, ResultsOf, CasesFor, PremiseHolds, JudgedOnItsQuotes, ValidProposition;
    forall id | id in p.claimIds ensures exists claim, j ::
      claim in a.claims && claim.claimId == id && JudgedOnce(judgments, claim, j) &&
      JudgedOnItsQuotes(a, packet, cases, claim, j) &&
      (p.kind == Fact ==> claim.state != InferenceClaim && j.verdict == DirectlySupported)
    {
      PremiseFailsOnlyThus(h, a, packet, cases, judgments, p.kind, id);
      var claim :| claim in a.claims && claim.claimId == id && (p.kind == Fact ==> claim.state != InferenceClaim);
      var j := ClaimIsJudgedOnce(h, a, packet, cases, judgments, claim);
    }
  }

  lemma BoundToPassed(h: Host, d: Addresses, a: Answer, s: CaseSet, e: EntailmentResult, p: Projection)
    requires BindingFindings(h, d, a, s, e, p) == []
    ensures e.decision == EntailmentPassed
  {
    hide Identified, ValidAnswer, ValidProjection;
  }

  lemma PassedCases(
    h: Host, s: CaseSet, contract: ContractResult, coverage: CoverageResult, receipt: Option<Receipt>, policy: Policy)
    requires EntailmentOutcome(h, s, contract, coverage, receipt, policy).decision == EntailmentPassed
    ensures receipt.Some?
    ensures EntailmentOutcome(h, s, contract, coverage, receipt, policy).cases ==
            ResultsOf(s.body.cases, receipt.value.body.judgments)
  {
    hide SetErrors, ErrorsOf, IntegrityErrors, ResultsOf, ClaimsDecided;
  }

  // A display pass is sound: over the builder's case set and the entailment gate's
  // own result, the displayed text is exactly the propositions' texts, every
  // premise has exactly one supporting judgment, given on the claim's own words
  // and quotations, and every fact rests only on supported or qualified claims
  // judged directly supported.
  lemma DisplayIsSound(
    h: Host, d: Addresses, a: Answer, packet: PacketData, spec: CoverageSpec, taskId: Id,
    contract: ContractResult, coverage: CoverageResult, receipt: Option<Receipt>, policy: Policy,
    p: Projection, roles: Option<RoleReceipt>, rolePolicy: Policy)
    requires CaseSetFor(h, a, packet, spec, taskId).Ok?
    requires
      var s := CaseSetFor(h, a, packet, spec, taskId).value;
      ProjectionOutcome(h, d, a, s, EntailmentOutcome(h, s, contract, coverage, receipt, policy), p, roles, rolePolicy).decision
        == ProjectionPassed
    ensures Concatenated(p.body.propositions) == a.shortAnswer
    ensures receipt.Some?
    ensures
      var s := CaseSetFor(h, a, packet, spec, taskId).value;
      forall x :: x in p.body.propositions ==> Grounded(a, packet, s.body.cases, receipt.value.body.judgments, x.body)
  {
    var s := CaseSetFor(h, a, packet, spec, taskId).value;
    CaseSetHolds(h, a, packet, spec, taskId);
    hide *;
    PassIsSound(h, d, a, packet, s, contract, coverage, receipt, policy, p, roles, rolePolicy);
  }

  lemma CaseSetHolds(h: Host, a: Answer, packet: PacketData, spec: CoverageSpec, taskId: Id)
    requires CaseSetFor(h, a, packet, spec, taskId).Ok?
    ensures
      var s := CaseSetFor(h, a, packet, spec, taskId).value;
      CasesFor(h, a, packet, a.claims) == Ok(s.body.cases) && UniqueBy(s.body.cases, CaseClaim)
  {
    hide CasesFor, ValidAnswer, UniqueBy;
  }

  lemma PassIsSound(
    h: Host, d: Addresses, a: Answer, packet: PacketData, s: CaseSet,
    contract: ContractResult, coverage: CoverageResult, receipt: Option<Receipt>, policy: Policy,
    p: Projection, roles: Option<RoleReceipt>, rolePolicy: Policy)
    requires CasesFor(h, a, packet, a.claims) == Ok(s.body.cases) && UniqueBy(s.body.cases, CaseClaim)
    requires
      ProjectionOutcome(h, d, a, s, EntailmentOutcome(h, s, contract, coverage, receipt, policy), p, roles, rolePolicy).decision
        == ProjectionPassed
    ensures Concatenated(p.body.propositions) == a.shortAnswer
    ensures receipt.Some?
    ensures forall x :: x in p.body.propositions ==> Grounded(a, packet, s.body.cases, receipt.value.body.judgments, x.body)
  {
    var e := EntailmentOutcome(h, s, contract, coverage, receipt, policy);
    hide *;
    DisplayPassesExactly(h, d, a, s, e, p, roles, rolePolicy);
    BoundToPassed(h, d, a, s, e, p);
    EntailmentPassesExactly(h, s, contract, coverage, receipt, policy);
    PassedCases(h, s, contract, coverage, receipt, policy);
    forall x | x in p.body.propositions ensures Grounded(a, packet, s.body.cases, receipt.value.body.judgments, x.body) {
      var judgments := roles.value.body.judgments;
      assert Closes(a, e, judgments, x);
      ClosedPremises(a, e, judgments, p, x);
      ClosedIsGrounded(h, a, packet, s.body.cases, receipt.value.body.judgments, x.body);
    }
  }

  lemma ClosedPremises(a: Answer, e: EntailmentResult, judgments: seq<RoleJudgment>, p: Projection, x: Proposition)
    requires x in p.body.propositions && Closes(a, e, judgments, x)
    ensures ValidProposition(x.body)
    ensures forall id :: id in x.body.claimIds ==> PremiseHolds(x.body.kind, a, e.cases, id)
  {
    hide PremiseHolds, VerdictOf, ValidProposition;
  }
}
