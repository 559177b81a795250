// The two answer gates read off their inputs: claims, cases, judgments, spans and
// propositions, by their own fields.

module GateRecords {
  import opened Common
  import opened RouteGraph
  import opened ClaimEntailment
  import opened AnswerProjection
  import opened AnswerSoundness

  // ------------------------------------------------------------ verdicts and spans

  // What a verdict decides for a claim of each state.
  lemma VerdictTable(state: ClaimState, verdict: Verdict)
    ensures
      ClaimDecision(state, verdict) ==
      match verdict
      case DirectlySupported => EntailmentPassed
      case SupportedInference => (if state == InferenceClaim then EntailmentPassed else EntailmentFailed)
      case PartlySupported => EntailmentFailed
      case UnsupportedVerdict => EntailmentFailed
      case Contradicted => EntailmentFailed
      case UncertainVerdict => EntailmentReview
  {
    match state case SupportedClaim => case QualifiedClaim => case InferenceClaim =>
  }

  // The span lies in the text and repeats it character by character.
  predicate ExactIn(text: string, span: Span) {
    span.end <= |text| && |span.text| == (if span.start <= span.end then span.end - span.start else 0) &&
    forall i :: 0 <= i < |span.text| ==> span.start + i < |text| && text[span.start + i] == span.text[i]
  }

  lemma SliceExactly(text: string, span: Span)
    requires span.end <= |text|
    ensures Slice(text, span.start, span.end) == span.text <==> ExactIn(text, span)
  {
    if span.start <= span.end {
      var part := text[span.start..span.end];
      forall i | 0 <= i < |part| ensures part[i] == text[span.start + i] {}
      if ExactIn(text, span) { assert part == span.text; }
    }
  }

  lemma {:induction false} SpansExactly(text: string, spans: seq<Span>)
    ensures FirstSpanError(text, spans) == None <==> forall span :: span in spans ==> ExactIn(text, span)
  {
    hide Slice, ExactIn;
    if spans != [] {
      SpansExactly(text, spans[1..]);
      assert spans == [spans[0]] + spans[1..];
      if spans[0].end <= |text| { SliceExactly(text, spans[0]); } else { OutsideIsInexact(text, spans[0]); }
    }
  }

  lemma OutsideIsInexact(text: string, span: Span)
    requires span.end > |text|
    ensures !ExactIn(text, span)
  {
  }

  // A supporting verdict names no span; any other names parts of the claim's text.
  predicate SpansAllowed(text: string, j: Judgment) {
    (j.verdict == DirectlySupported || j.verdict == SupportedInference ==> j.spans == []) &&
    forall span :: span in j.spans ==> ExactIn(text, span)
  }

  lemma SpansAllowedExactly(text: string, j: Judgment)
    ensures SpanErrorOf(text, j) == None <==> SpansAllowed(text, j)
  {
    hide ExactIn;
    SpansExactly(text, j.spans);
    hide FirstSpanError;
    if Supports(j.verdict) && j.spans != [] { assert j.spans[0] in j.spans; }
  }

  // --------------------------------------------------------------- the judgments

  ghost predicate OncePerCase(judgments: seq<Judgment>) {
    forall i, j :: 0 <= i < j < |judgments| ==>
      judgments[i].caseId != judgments[j].caseId && judgments[i].claimId != judgments[j].claimId
  }

  // The judgment is for this case, names its claim and keeps to its text.
  predicate Fits(c: Case, j: Judgment) {
    j.caseId == c.caseId && j.claimId == c.body.claimId && SpansAllowed(c.body.claimText, j)
  }

  // One judgment per case and per claim, none missing and none beside the point.
  ghost predicate OneForOne(cases: seq<Case>, judgments: seq<Judgment>) {
    OncePerCase(judgments) &&
    (forall c :: c in cases ==> exists j :: j in judgments && Fits(c, j)) &&
    forall j :: j in judgments ==> exists c :: c in cases && j.caseId == c.caseId
  }

  lemma OncePerCaseExactly(judgments: seq<Judgment>)
    ensures OncePerCase(judgments) <==> Distinct(Map(JudgmentCase, judgments)) && Distinct(Map(JudgmentClaim, judgments))
  {
    hide Distinct;
    DistinctIndices(Map(JudgmentCase, judgments));
    DistinctIndices(Map(JudgmentClaim, judgments));
  }

  lemma CaseClean(c: Case, judgments: seq<Judgment>)
    requires Distinct(Map(JudgmentCase, judgments)) && c.caseId in Elems(Map(JudgmentCase, judgments))
    ensures ErrorsOfCase(c, judgments) == [] <==> exists j :: j in judgments && Fits(c, j)
  {
    MapElems(JudgmentCase, judgments);
    hide Map, Elems, Distinct, SpanErrorOf, SpansAllowed;
    var j :| j in judgments && JudgmentCase(j) == c.caseId;
    FindByKey(JudgmentCase, judgments, j);
    SpansAllowedExactly(c.body.claimText, j);
    forall k | k in judgments && Fits(c, k) ensures k == j { UniqueByIds(judgments, JudgmentCase, j, k); }
  }

  lemma WellFormedExactly(cases: seq<Case>, judgments: seq<Judgment>)
    ensures WellFormedAnswers(cases, judgments) <==> OneForOne(cases, judgments)
  {
    hide OneForOne, WellFormedAnswers;
    if WellFormedAnswers(cases, judgments) { OneForOneHolds(cases, judgments); }
    if OneForOne(cases, judgments) { WellFormedHolds(cases, judgments); }
  }

  lemma OneForOneHolds(cases: seq<Case>, judgments: seq<Judgment>)
    requires WellFormedAnswers(cases, judgments)
    ensures OneForOne(cases, judgments)
  {
    OncePerCaseExactly(judgments);
    MapElems(JudgmentCase, judgments);
    MapElems(CaseKey, cases);
    hide Distinct, OncePerCase, Fits, ErrorsOfCase, Map, Elems;
    forall c | c in cases ensures exists j :: j in judgments && Fits(c, j) {
      assert CaseKey(c) in Elems(Map(CaseKey, cases));
      CaseClean(c, judgments);
    }
    forall j | j in judgments ensures exists c :: c in cases && j.caseId == c.caseId {
      assert JudgmentCase(j) in Elems(Map(CaseKey, cases));
      var c :| c in cases && CaseKey(c) == JudgmentCase(j);
    }
  }

  lemma FitsNames(c: Case, j: Judgment)
    requires Fits(c, j)
    ensures JudgmentCase(j) == CaseKey(c) && JudgmentClaim(j) == CaseClaim(c)
  {
  }

  lemma WellFormedHolds(cases: seq<Case>, judgments: seq<Judgment>)
    requires OneForOne(cases, judgments)
    ensures WellFormedAnswers(cases, judgments)
  {
    OncePerCaseExactly(judgments);
    hide *;
    OneForOneOnce(cases, judgments);
    EveryCaseJudged(cases, judgments);
    forall j | j in judgments
      ensures JudgmentCase(j) in Elems(Map(CaseKey, cases)) && JudgmentClaim(j) in Elems(Map(CaseClaim, cases))
    {
      JudgmentPlaced(cases, judgments, j);
    }
    forall c | c in cases ensures ErrorsOfCase(c, judgments) == [] { CaseIsClean(cases, judgments, c); }
    WellFormedIs(cases, judgments);
  }

  lemma OneForOneOnce(cases: seq<Case>, judgments: seq<Judgment>)
    requires OneForOne(cases, judgments)
    ensures OncePerCase(judgments) && UniqueBy(judgments, JudgmentCase) && Distinct(Map(JudgmentClaim, judgments))
    ensures Distinct(Map(JudgmentCase, judgments))
  {
    OncePerCaseExactly(judgments);
    hide Distinct, Fits, OncePerCase;
  }

  lemma CaseIsClean(cases: seq<Case>, judgments: seq<Judgment>, c: Case)
    requires OneForOne(cases, judgments) && c in cases
    ensures ErrorsOfCase(c, judgments) == []
  {
    OneForOneOnce(cases, judgments);
    MapElems(JudgmentCase, judgments);
    hide Distinct, Fits, OncePerCase, ErrorsOfCase, Map, Elems;
    var j :| j in judgments && Fits(c, j);
    FitsNames(c, j);
    assert JudgmentCase(j) in Elems(Map(JudgmentCase, judgments));
    CaseClean(c, judgments);
  }

  lemma EveryCaseJudged(cases: seq<Case>, judgments: seq<Judgment>)
    requires OneForOne(cases, judgments)
    ensures Elems(Map(CaseKey, cases)) <= Elems(Map(JudgmentCase, judgments))
  {
    MapElems(JudgmentCase, judgments);
    MapElems(CaseKey, cases);
    hide OncePerCase, Fits, Map, Elems;
    forall id | id in Elems(Map(CaseKey, cases)) ensures id in Elems(Map(JudgmentCase, judgments)) {
      var c :| c in cases && CaseKey(c) == id;
      var j :| j in judgments && Fits(c, j);
      FitsNames(c, j);
    }
  }

  lemma JudgmentPlaced(cases: seq<Case>, judgments: seq<Judgment>, j: Judgment)
    requires OneForOne(cases, judgments) && UniqueBy(judgments, JudgmentCase) && j in judgments
    ensures JudgmentCase(j) in Elems(Map(CaseKey, cases)) && JudgmentClaim(j) in Elems(Map(CaseClaim, cases))
  {
    MapElems(CaseKey, cases);
    MapElems(CaseClaim, cases);
    hide UniqueBy, OncePerCase, Fits, Map, Elems;
    var c :| c in cases && j.caseId == c.caseId;
    var k :| k in judgments && Fits(c, k);
    FitsNames(c, k);
    UniqueByIds(judgments, JudgmentCase, j, k);
  }

  lemma WellFormedIs(cases: seq<Case>, judgments: seq<Judgment>)
    requires Distinct(Map(JudgmentCase, judgments)) && Distinct(Map(JudgmentClaim, judgments))
    requires Elems(Map(CaseKey, cases)) <= Elems(Map(JudgmentCase, judgments))
    requires forall j :: j in judgments ==>
      JudgmentCase(j) in Elems(Map(CaseKey, cases)) && JudgmentClaim(j) in Elems(Map(CaseClaim, cases))
    requires forall c :: c in cases ==> ErrorsOfCase(c, judgments) == []
    ensures WellFormedAnswers(cases, judgments)
  {
    MapElems(JudgmentCase, judgments);
    MapElems(JudgmentClaim, judgments);
    hide Distinct, ErrorsOfCase, Map, Elems;
  }

  // ------------------------------------------------------- the entailment gate

  // The verdict bears a claim of this state out, or refutes it; uncertain does neither.
  predicate BearsOut(state: ClaimState, verdict: Verdict) {
    verdict == DirectlySupported || (verdict == SupportedInference && state == InferenceClaim)
  }

  predicate Disproves(state: ClaimState, verdict: Verdict) {
    verdict == PartlySupported || verdict == UnsupportedVerdict || verdict == Contradicted ||
    (verdict == SupportedInference && state != InferenceClaim)
  }

  ghost predicate AllBorneOut(cases: seq<Case>, judgments: seq<Judgment>) {
    forall c, j :: c in cases && j in judgments && j.caseId == c.caseId ==> BearsOut(c.body.claimState, j.verdict)
  }

  ghost predicate DisprovedBy(c: Case, judgments: seq<Judgment>) {
    exists j :: j in judgments && j.caseId == c.caseId && Disproves(c.body.claimState, j.verdict)
  }

  lemma VerdictsExactly(state: ClaimState, verdict: Verdict)
    ensures Acceptable(state, verdict) <==> BearsOut(state, verdict)
    ensures Refutes(state, verdict) <==> Disproves(state, verdict)
  {
  }

  lemma JudgesExactly(cases: seq<Case>, judgments: seq<Judgment>)
    ensures JudgesEachCase(cases, judgments) <==> OneForOne(cases, judgments) && AllBorneOut(cases, judgments)
  {
    OncePerCaseExactly(judgments);
    hide Distinct, Map, OncePerCase;
    if JudgesEachCase(cases, judgments) { JudgedIsOneForOne(cases, judgments); }
    if OneForOne(cases, judgments) && AllBorneOut(cases, judgments) { OneForOneIsJudged(cases, judgments); }
  }

  lemma SettlesFits(c: Case, j: Judgment)
    ensures Settles(c, j) <==> Fits(c, j) && BearsOut(c.body.claimState, j.verdict)
  {
    VerdictsExactly(c.body.claimState, j.verdict);
  }

  lemma JudgedFits(cases: seq<Case>, judgments: seq<Judgment>, c: Case) returns (j: Judgment)
    requires JudgesEachCase(cases, judgments) && c in cases
    ensures j in judgments && Fits(c, j) && BearsOut(c.body.claimState, j.verdict) && j.caseId == c.caseId
  {
    hide Distinct, Settles, Fits, BearsOut, Map;
    assert Answered(c, judgments);
    j :| j in judgments && Settles(c, j);
    SettlesFits(c, j);
    FitsNames(c, j);
  }

  lemma JudgedBelongs(cases: seq<Case>, judgments: seq<Judgment>, j: Judgment) returns (c: Case)
    requires JudgesEachCase(cases, judgments) && j in judgments
    ensures c in cases && j.caseId == c.caseId
  {
    hide Distinct, Settles, Fits, BearsOut, Map;
    assert Belongs(j, cases);
    c :| c in cases && Settles(c, j);
    SettlesFits(c, j);
    FitsNames(c, j);
  }

  lemma JudgedIsOneForOne(cases: seq<Case>, judgments: seq<Judgment>)
    requires JudgesEachCase(cases, judgments)
    ensures OneForOne(cases, judgments) && AllBorneOut(cases, judgments)
  {
    hide *;
    JudgedDistinct(cases, judgments);
    forall c | c in cases ensures exists j :: j in judgments && Fits(c, j) { var j := JudgedFits(cases, judgments, c); }
    forall j | j in judgments ensures exists c :: c in cases && j.caseId == c.caseId { var c := JudgedBelongs(cases, judgments, j); }
    forall c, j | c in cases && j in judgments && j.caseId == c.caseId ensures BearsOut(c.body.claimState, j.verdict) {
      BorneOutAt(cases, judgments, c, j);
    }
    OneForOneIs(cases, judgments);
  }

  lemma JudgedDistinct(cases: seq<Case>, judgments: seq<Judgment>)
    requires JudgesEachCase(cases, judgments)
    ensures OncePerCase(judgments) && UniqueBy(judgments, JudgmentCase)
  {
    OncePerCaseExactly(judgments);
    hide OncePerCase, Distinct, Map;
  }

  lemma OneForOneIs(cases: seq<Case>, judgments: seq<Judgment>)
    requires OncePerCase(judgments) && forall c :: c in cases ==> exists j :: j in judgments && Fits(c, j)
    requires forall j :: j in judgments ==> exists c :: c in cases && j.caseId == c.caseId
    requires forall c, j :: c in cases && j in judgments && j.caseId == c.caseId ==> BearsOut(c.body.claimState, j.verdict)
    ensures OneForOne(cases, judgments) && AllBorneOut(cases, judgments)
  {
    hide OncePerCase, Fits, BearsOut;
  }

  lemma BorneOutAt(cases: seq<Case>, judgments: seq<Judgment>, c: Case, j: Judgment)
    requires JudgesEachCase(cases, judgments) && UniqueBy(judgments, JudgmentCase)
    requires c in cases && j in judgments && j.caseId == c.caseId
    ensures BearsOut(c.body.claimState, j.verdict)
  {
    hide UniqueBy, JudgesEachCase, Fits, BearsOut;
    var k := JudgedFits(cases, judgments, c);
    UniqueByIds(judgments, JudgmentCase, j, k);
  }

  lemma OneForOneIsJudged(cases: seq<Case>, judgments: seq<Judgment>)
    requires OneForOne(cases, judgments) && AllBorneOut(cases, judgments)
    ensures JudgesEachCase(cases, judgments)
  {
    OneForOneOnce(cases, judgments);
    hide Distinct, OncePerCase, Settles, Fits, BearsOut, Map;
    forall c | c in cases ensures Answered(c, judgments) {
      var j :| j in judgments && Fits(c, j);
      FitsNames(c, j);
      SettlesFits(c, j);
    }
    forall j | j in judgments ensures Belongs(j, cases) {
      var c :| c in cases && j.caseId == c.caseId;
      var k :| k in judgments && Fits(c, k);
      FitsNames(c, k);
      UniqueByIds(judgments, JudgmentCase, j, k);
      SettlesFits(c, j);
    }
  }

  // The earlier gates accepted this very answer.
  predicate Accepted(s: CaseSet, contract: ContractResult, coverage: CoverageResult) {
    contract.accepted && coverage.complete && contract.answer == Some(s.body.answer) &&
    coverage.answer == s.body.answer && coverage.spec == s.body.coverageSpec
  }

  predicate JudgePinned(policy: Policy, judge: Judge) {
    (policy.kind == None || policy.kind == Some(judge.kind)) &&
    (policy.profileId == None || policy.profileId == Some(judge.profileId)) &&
    (policy.profileHash == None || policy.profileHash == Some(judge.profileHash)) &&
    (policy.promptHash == None || policy.promptHash == Some(judge.promptHash)) &&
    (policy.rawHash == None || policy.rawHash == Some(judge.rawHash))
  }

  // The receipt carries its own address, is for this case set and within policy.
  predicate Intact(h: Host, s: CaseSet, r: Receipt, policy: Policy) {
    r.ref == h.receiptRef(r.body) && r.body.caseSet == s.ref && JudgePinned(policy, r.body.judge)
  }

  // The gate's decision, for every input: unchecked when an earlier gate did not
  // accept this answer; passed when one intact judgment per case bears its claim
  // out; failed when the judgments are in order and one disproves its claim; and
  // otherwise up for review.
  lemma EntailmentExactly(
    h: Host, s: CaseSet, contract: ContractResult, coverage: CoverageResult, receipt: Option<Receipt>, policy: Policy)
    ensures
      var e := EntailmentOutcome(h, s, contract, coverage, receipt, policy);
      var cases := s.body.cases;
      e.caseSet == s.ref && e.receipt == (if e.decision != EntailmentUnchecked && receipt.Some? then Some(receipt.value.ref) else None) &&
      (e.decision == EntailmentUnchecked <==> !Accepted(s, contract, coverage)) &&
      (e.decision == EntailmentPassed <==>
        Accepted(s, contract, coverage) && receipt.Some? && Intact(h, s, receipt.value, policy) &&
        OneForOne(cases, receipt.value.body.judgments) && AllBorneOut(cases, receipt.value.body.judgments)) &&
      (e.decision == EntailmentFailed <==>
        Accepted(s, contract, coverage) && receipt.Some? && Intact(h, s, receipt.value, policy) &&
        OneForOne(cases, receipt.value.body.judgments) && exists c :: c in cases && DisprovedBy(c, receipt.value.body.judgments))
  {
    assert PrerequisiteError(s, contract, coverage) == None <==> Accepted(s, contract, coverage);
    hide *;
    EntailmentPassesExactly(h, s, contract, coverage, receipt, policy);
    EntailmentFailsExactly(h, s, contract, coverage, receipt, policy);
    OutcomeShape(h, s, contract, coverage, receipt, policy);
    if receipt.Some? {
      var judgments := receipt.value.body.judgments;
      JudgesExactly(s.body.cases, judgments);
      WellFormedExactly(s.body.cases, judgments);
      forall c ensures Refuted(c, judgments) <==> DisprovedBy(c, judgments) { RefutedExactly(c, judgments); }
      IntactExactly(h, s, receipt.value, policy);
    }
  }

  lemma IntactExactly(h: Host, s: CaseSet, r: Receipt, policy: Policy)
    ensures Trusted(h, s, r, policy) <==> Intact(h, s, r, policy)
  {
  }

  lemma RefutedExactly(c: Case, judgments: seq<Judgment>)
    ensures Refuted(c, judgments) <==> DisprovedBy(c, judgments)
  {
    forall j: Judgment ensures Refutes(c.body.claimState, j.verdict) <==> Disproves(c.body.claimState, j.verdict) {
      VerdictsExactly(c.body.claimState, j.verdict);
    }
    hide Refutes, Disproves;
  }

  lemma OutcomeShape(
    h: Host, s: CaseSet, contract: ContractResult, coverage: CoverageResult, receipt: Option<Receipt>, policy: Policy)
    ensures
      var e := EntailmentOutcome(h, s, contract, coverage, receipt, policy);
      e.caseSet == s.ref && (e.decision == EntailmentUnchecked <==> PrerequisiteError(s, contract, coverage) != None) &&
      e.receipt == (if e.decision != EntailmentUnchecked && receipt.Some? then Some(receipt.value.ref) else None)
  {
    hide PrerequisiteError, ResultsOf, SetErrors, ErrorsOf, IntegrityErrors, ClaimsDecided;
  }

  // -------------------------------------------------------- the projection gate

  // The projection is content-addressed, and bound to this answer, its case set and
  // its passed entailment.
  predicate BoundTo(h: Host, d: Addresses, a: Answer, s: CaseSet, e: EntailmentResult, p: Projection) {
    p.ref == d.projectionRef(p.body) && (forall x :: x in p.body.propositions ==> x.propositionId == d.propositionId(x.body)) &&
    p.body.answer == h.answerRef(a) && s.body.answer == h.answerRef(a) && p.body.caseSet == s.ref &&
    e.decision == EntailmentPassed && e.caseSet == s.ref && e.receipt == Some(p.body.entailmentReceipt)
  }

  lemma BoundExactly(h: Host, d: Addresses, a: Answer, s: CaseSet, e: EntailmentResult, p: Projection)
    ensures BindingFindings(h, d, a, s, e, p) == [] <==> BoundTo(h, d, a, s, e, p)
  {
    hide ValidAnswer, ValidProjection;
  }

  // The propositions' spans are the whole answer, each repeating its part of it.
  predicate Spells(text: string, ps: seq<Proposition>) {
    ps != [] && ps[|ps| - 1].body.end == |text| &&
    forall p :: p in ps ==> p.body.start <= p.body.end <= |text| && p.body.text == text[p.body.start..p.body.end]
  }

  lemma SpanSpells(text: string, x: PropositionBody)
    requires ValidProposition(x)
    ensures Slice(text, x.start, x.end) == x.text <==> x.start <= x.end <= |text| && x.text == text[x.start..x.end]
  {
    LastSpan(text, x.start, x.end, x.text);
    hide Slice;
  }

  lemma SpansSpell(text: string, ps: seq<Proposition>)
    requires forall x :: x in ps ==> ValidProposition(x.body)
    ensures ExactSpans(text, ps) <==>
            forall p :: p in ps ==> p.body.start <= p.body.end <= |text| && p.body.text == text[p.body.start..p.body.end]
  {
    hide Slice, ValidProposition;
    forall x | x in ps ensures Slice(text, x.body.start, x.body.end) == x.body.text <==>
      x.body.start <= x.body.end <= |text| && x.body.text == text[x.body.start..x.body.end]
    {
      SpanSpells(text, x.body);
    }
    if ExactSpans(text, ps) {
      forall x | x in ps ensures Slice(text, x.body.start, x.body.end) == x.body.text {
        var i :| 0 <= i < |ps| && ps[i] == x;
      }
    }
  }

  lemma SpellsExactly(a: Answer, p: Projection)
    ensures TextFindings(a, p) == [] <==> Spells(a.shortAnswer, p.body.propositions)
  {
    var text, ps := a.shortAnswer, p.body.propositions;
    PropositionsValid(p);
    hide *;
    HasPropositions(p);
    TextFindingsEmpty(a, p);
    NoInexactSpans(text, ps);
    SpansSpell(text, ps);
    SpellsIs(text, ps);
  }

  lemma PropositionsValid(p: Projection)
    ensures forall x :: x in p.body.propositions ==> ValidProposition(x.body)
  {
  }

  lemma TextFindingsEmpty(a: Answer, p: Projection)
    requires p.body.propositions != []
    ensures
      var ps := p.body.propositions;
      TextFindings(a, p) == [] <==> ps[|ps| - 1].body.end == |a.shortAnswer| && InexactSpans(a.shortAnswer, ps) == []
  {
    hide ValidAnswer, ValidProjection, InexactSpans;
  }

  lemma SpellsIs(text: string, ps: seq<Proposition>)
    ensures Spells(text, ps) <==>
            ps != [] && ps[|ps| - 1].body.end == |text| &&
            forall p :: p in ps ==> p.body.start <= p.body.end <= |text| && p.body.text == text[p.body.start..p.body.end]
  {
  }

  // The result that counts for a claim: the last one that names it.
  ghost predicate ResultFor(outcomes: seq<CaseResult>, id: Id, x: CaseResult) {
    exists i :: 0 <= i < |outcomes| && outcomes[i] == x && x.claimId == id && forall k :: i < k < |outcomes| ==> outcomes[k].claimId != id
  }

  lemma ResultForStep(front: seq<CaseResult>, last: CaseResult, id: Id, x: CaseResult)
    ensures ResultFor(front + [last], id, x) <==> if last.claimId == id then x == last else ResultFor(front, id, x)
  {
    var all := front + [last];
    if ResultFor(all, id, x) {
      var i :| 0 <= i < |all| && all[i] == x && x.claimId == id && forall k :: i < k < |all| ==> all[k].claimId != id;
      forall k | i < k < |front| ensures front[k].claimId != id { assert front[k] == all[k]; }
      assert i < |front| ==> front[i] == x && all[|front|] == last;
    }
    if last.claimId == id { assert all[|front|] == last; }
    if last.claimId != id && ResultFor(front, id, x) {
      var i :| 0 <= i < |front| && front[i] == x && forall k :: i < k < |front| ==> front[k].claimId != id;
      forall k | i < k < |all| ensures all[k].claimId != id { if k < |front| { assert all[k] == front[k]; } }
      assert all[i] == x;
    }
  }

  lemma {:induction false} ResultForExactly(outcomes: seq<CaseResult>, id: Id, x: CaseResult)
    ensures OutcomeFor(outcomes, id) == Some(x) <==> ResultFor(outcomes, id, x)
  {
    if outcomes != [] {
      var front, last := outcomes[..|outcomes| - 1], outcomes[|outcomes| - 1];
      ResultForExactly(front, id, x);
      ResultForStep(front, last, id, x);
      hide ResultFor;
      assert outcomes == front + [last];
    }
  }

  // A premise holds when the answer has the claim and its result passed with a
  // supporting verdict; a fact needs a factual claim and direct support.
  ghost predicate PremiseStands(kind: PropositionKind, a: Answer, outcomes: seq<CaseResult>, id: Id) {
    exists claim, x :: claim in a.claims && claim.claimId == id && ResultFor(outcomes, id, x) && Sustains(kind, claim, x)
  }

  predicate Sustains(kind: PropositionKind, claim: Claim, x: CaseResult) {
    x.decision == EntailmentPassed && (x.verdict == Some(DirectlySupported) || x.verdict == Some(SupportedInference)) &&
    (kind == Fact ==> x.verdict == Some(DirectlySupported) && (claim.state == SupportedClaim || claim.state == QualifiedClaim))
  }

  lemma PremiseExactly(kind: PropositionKind, a: Answer, outcomes: seq<CaseResult>, id: Id)
    ensures PremiseHolds(kind, a, outcomes, id) <==> PremiseStands(kind, a, outcomes, id)
  {
    assert UniqueBy(a.claims, ClaimKey);
    forall claim | claim in a.claims && claim.claimId == id ensures FindBy(ClaimKey, a.claims, id) == Some(claim) {
      FindByKey(ClaimKey, a.claims, claim);
    }
    forall x ensures OutcomeFor(outcomes, id) == Some(x) <==> ResultFor(outcomes, id, x) { ResultForExactly(outcomes, id, x); }
    hide ValidAnswer, UniqueBy, FindBy, OutcomeFor, ResultFor;
    match FindBy(ClaimKey, a.claims, id)
    case None =>
    case Some(claim) =>
      match OutcomeFor(outcomes, id)
      case None =>
      case Some(x) => SustainsExactly(kind, a, outcomes, claim, x);
  }

  lemma SustainsExactly(kind: PropositionKind, a: Answer, outcomes: seq<CaseResult>, claim: Claim, x: CaseResult)
    requires FindBy(ClaimKey, a.claims, claim.claimId) == Some(claim) && OutcomeFor(outcomes, claim.claimId) == Some(x)
    ensures PremiseHolds(kind, a, outcomes, claim.claimId) <==> Sustains(kind, claim, x)
  {
    hide ValidAnswer, FindBy, OutcomeFor;
  }

  // The role that was declared for the span.
  predicate Confirms(kind: PropositionKind, verdict: PropositionVerdict) {
    (kind == Fact && verdict == Entailed) || (kind == Synthesis && verdict == BoundedSynthesis) ||
    (kind == Hypothesis && verdict == DisclosedHypothesis) || (kind == OpenQuestion && verdict == AsksOpenly) ||
    (kind == Framing && verdict == NonPropositional)
  }

  // One role judgment per proposition and none beside, from an intact receipt within
  // policy.
  ghost predicate RolesIntact(d: Addresses, p: Projection, r: RoleReceipt, policy: Policy) {
    r.ref == d.roleReceiptRef(r.body) && r.body.projection == p.ref && JudgePinned(policy, r.body.judge) &&
    RolesMatch(p.body.propositions, r.body.judgments)
  }

  ghost predicate RolesMatch(ps: seq<Proposition>, roles: seq<RoleJudgment>) {
    (forall i, j :: 0 <= i < j < |roles| ==> roles[i].propositionId != roles[j].propositionId) &&
    (forall x :: x in ps ==> exists j :: j in roles && j.propositionId == x.propositionId) &&
    forall j :: j in roles ==> exists x :: x in ps && x.propositionId == j.propositionId
  }

  lemma RolesMatchExactly(ps: seq<Proposition>, roles: seq<RoleJudgment>)
    ensures RolesMatch(ps, roles) <==>
            Distinct(Map(RoleKey, roles)) && Elems(Map(RoleKey, roles)) == Elems(Map(PropositionKey, ps))
  {
    DistinctIndices(Map(RoleKey, roles));
    MapElems(RoleKey, roles);
    MapElems(PropositionKey, ps);
    hide Distinct, Map, Elems;
    if Elems(Map(RoleKey, roles)) == Elems(Map(PropositionKey, ps)) {
      forall x | x in ps ensures exists j :: j in roles && j.propositionId == x.propositionId {
        assert PropositionKey(x) in Elems(Map(RoleKey, roles));
        var j :| j in roles && RoleKey(j) == PropositionKey(x);
      }
      forall j | j in roles ensures exists x :: x in ps && x.propositionId == j.propositionId {
        assert RoleKey(j) in Elems(Map(PropositionKey, ps));
        var x :| x in ps && PropositionKey(x) == RoleKey(j);
      }
    }
    if RolesMatch(ps, roles) {
      forall id ensures id in Elems(Map(RoleKey, roles)) <==> id in Elems(Map(PropositionKey, ps)) {
        if id in Elems(Map(RoleKey, roles)) {
          var j :| j in roles && RoleKey(j) == id;
          var x :| x in ps && x.propositionId == j.propositionId;
          assert PropositionKey(x) == id;
        }
        if id in Elems(Map(PropositionKey, ps)) {
          var x :| x in ps && PropositionKey(x) == id;
          var j :| j in roles && j.propositionId == x.propositionId;
          assert RoleKey(j) == id;
        }
      }
    }
  }

  lemma RolesExactly(d: Addresses, p: Projection, r: RoleReceipt, policy: Policy)
    ensures RolesTrusted(d, p, r, policy) <==> RolesIntact(d, p, r, policy)
  {
    hide ValidProjection, RolesMatch;
    RolesMatchExactly(p.body.propositions, r.body.judgments);
    hide Distinct, Elems, Map;
  }

  // The span's role is confirmed and each of its premises stands.
  ghost predicate SpanCloses(a: Answer, e: EntailmentResult, roles: seq<RoleJudgment>, p: Proposition) {
    (exists j :: j in roles && j.propositionId == p.propositionId && Confirms(p.body.kind, j.verdict)) &&
    forall id :: id in p.body.claimIds ==> PremiseStands(p.body.kind, a, e.cases, id)
  }

  // The premise is absent from the answer, or its passed result does not sustain it.
  ghost predicate PremiseBroken(kind: PropositionKind, a: Answer, outcomes: seq<CaseResult>, id: Id) {
    (forall claim :: claim in a.claims ==> claim.claimId != id) ||
    exists claim, x :: claim in a.claims && claim.claimId == id && ResultFor(outcomes, id, x) &&
      x.decision == EntailmentPassed && !Sustains(kind, claim, x)
  }

  // The span's role was denied, or one of its premises is broken.
  ghost predicate SpanBroken(a: Answer, e: EntailmentResult, roles: seq<RoleJudgment>, p: Proposition) {
    (exists j :: j in roles && j.propositionId == p.propositionId && j.verdict != Uncertain && !Confirms(p.body.kind, j.verdict)) ||
    exists id :: id in p.body.claimIds && PremiseBroken(p.body.kind, a, e.cases, id)
  }

  lemma RoleFor(roles: seq<RoleJudgment>, ps: seq<Proposition>, p: Proposition) returns (j: RoleJudgment)
    requires RolesMatch(ps, roles) && p in ps
    ensures j in roles && j.propositionId == p.propositionId && VerdictOf(roles, p.propositionId) == j.verdict
    ensures forall k :: k in roles && k.propositionId == p.propositionId ==> k == j
  {
    j :| j in roles && j.propositionId == p.propositionId;
    RolesMatchExactly(ps, roles);
    hide RolesMatch, Distinct;
    FindByKey(RoleKey, roles, j);
    forall k | k in roles && k.propositionId == p.propositionId ensures k == j { UniqueByIds(roles, RoleKey, j, k); }
  }

  lemma ConfirmsExactly(kind: PropositionKind, verdict: PropositionVerdict)
    ensures verdict == RoleOf(kind) <==> Confirms(kind, verdict)
    ensures VerdictFindings(kind, verdict).violations != [] <==> verdict != Uncertain && !Confirms(kind, verdict)
  {
  }

  lemma ClosesExactly(a: Answer, e: EntailmentResult, roles: seq<RoleJudgment>, ps: seq<Proposition>, p: Proposition)
    requires RolesMatch(ps, roles) && p in ps
    ensures Closes(a, e, roles, p) <==> SpanCloses(a, e, roles, p)
  {
    var j := RoleFor(roles, ps, p);
    ConfirmsExactly(p.body.kind, j.verdict);
    hide RolesMatch, Confirms, PremiseStands, PremiseHolds, ValidAnswer, RoleOf;
    forall id ensures PremiseHolds(p.body.kind, a, e.cases, id) <==> PremiseStands(p.body.kind, a, e.cases, id) {
      PremiseExactly(p.body.kind, a, e.cases, id);
    }
  }

  lemma PremiseBreaks(kind: PropositionKind, a: Answer, outcomes: seq<CaseResult>, id: Id)
    ensures PremiseFindings(kind, a, outcomes, id).violations != [] <==> PremiseBroken(kind, a, outcomes, id)
  {
    assert UniqueBy(a.claims, ClaimKey);
    forall claim | claim in a.claims && claim.claimId == id ensures FindBy(ClaimKey, a.claims, id) == Some(claim) {
      FindByKey(ClaimKey, a.claims, claim);
    }
    forall x ensures OutcomeFor(outcomes, id) == Some(x) <==> ResultFor(outcomes, id, x) { ResultForExactly(outcomes, id, x); }
    hide ValidAnswer, UniqueBy, FindBy, OutcomeFor, ResultFor;
    match FindBy(ClaimKey, a.claims, id)
    case None =>
    case Some(claim) =>
      match OutcomeFor(outcomes, id)
      case None =>
      case Some(x) => BreaksExactly(kind, a, outcomes, claim, x);
  }

  lemma BreaksExactly(kind: PropositionKind, a: Answer, outcomes: seq<CaseResult>, claim: Claim, x: CaseResult)
    requires FindBy(ClaimKey, a.claims, claim.claimId) == Some(claim) && OutcomeFor(outcomes, claim.claimId) == Some(x)
    ensures PremiseFindings(kind, a, outcomes, claim.claimId).violations != [] <==>
            x.decision == EntailmentPassed && !Sustains(kind, claim, x)
  {
    hide ValidAnswer, FindBy, OutcomeFor;
  }

  lemma {:induction false} PremisesBreak(kind: PropositionKind, a: Answer, outcomes: seq<CaseResult>, ids: seq<Id>)
    ensures PremisesFindings(kind, a, outcomes, ids).violations != [] <==>
            exists id :: id in ids && PremiseBroken(kind, a, outcomes, id)
  {
    hide PremiseFindings, PremiseBroken, ValidAnswer;
    if ids != [] {
      var front, last := ids[..|ids| - 1], ids[|ids| - 1];
      PremisesBreak(kind, a, outcomes, front);
      PremiseBreaks(kind, a, outcomes, last);
      assert ids == front + [last];
    }
  }

  lemma BrokenExactly(a: Answer, e: EntailmentResult, roles: seq<RoleJudgment>, ps: seq<Proposition>, p: Proposition)
    requires RolesMatch(ps, roles) && p in ps && ValidProposition(p.body)
    ensures FindingsFor(a, e, roles, p).violations != [] <==> SpanBroken(a, e, roles, p)
  {
    var j := RoleFor(roles, ps, p);
    ConfirmsExactly(p.body.kind, j.verdict);
    PremisesBreak(p.body.kind, a, e.cases, p.body.claimIds);
    hide RolesMatch, Confirms, PremiseBroken, ValidAnswer, VerdictFindings, PremisesFindings, VerdictOf;
  }

  lemma {:induction false} ViolationsBreak(a: Answer, e: EntailmentResult, roles: seq<RoleJudgment>, all: seq<Proposition>, ps: seq<Proposition>)
    requires RolesMatch(all, roles) && forall p :: p in ps ==> p in all && ValidProposition(p.body)
    ensures AllViolations(a, e, roles, ps) != [] <==> exists p :: p in ps && SpanBroken(a, e, roles, p)
  {
    hide RolesMatch, SpanBroken, FindingsFor, ValidAnswer, ValidProposition;
    if ps != [] {
      var front, last := ps[..|ps| - 1], ps[|ps| - 1];
      assert ps == front + [last];
      ViolationsBreak(a, e, roles, all, front);
      BrokenExactly(a, e, roles, all, last);
      assert |RouteViolations(last.propositionId, FindingsFor(a, e, roles, last).violations)| == |FindingsFor(a, e, roles, last).violations|;
    }
  }

  // ------------------------------------------------------------- the decision

  lemma ProjectionCases(
    h: Host, d: Addresses, a: Answer, s: CaseSet, e: EntailmentResult, p: Projection, receipt: Option<RoleReceipt>, policy: Policy)
    ensures
      var r := ProjectionOutcome(h, d, a, s, e, p, receipt, policy);
      r.projection == p.ref && (r.displayEligible <==> r.decision == ProjectionPassed) &&
      (r.decision == ProjectionFailed <==>
        BindingFindings(h, d, a, s, e, p) == [] &&
        (TextFindings(a, p) != [] ||
         (RoleFindings(d, p, receipt, policy) == [] && AllViolations(a, e, receipt.value.body.judgments, p.body.propositions) != [])))
  {
    RolesNeedReceipt(d, p, receipt, policy);
    hide BindingFindings, TextFindings, RoleFindings, AllViolations, AllReasons, Coverages, Unclosed, ValidAnswer, ValidProjection;
  }

  // The projection gate's decision, for every input: failed when the bound
  // projection misspells the answer, or intact role judgments deny a span's role or
  // find a premise broken; passed when it spells the answer and every span closes;
  // and otherwise up for review.
  lemma DisplayExactly(
    h: Host, d: Addresses, a: Answer, s: CaseSet, e: EntailmentResult, p: Projection, receipt: Option<RoleReceipt>, policy: Policy)
    ensures
      var r := ProjectionOutcome(h, d, a, s, e, p, receipt, policy);
      var ps := p.body.propositions;
      r.projection == p.ref && (r.displayEligible <==> r.decision == ProjectionPassed) &&
      (r.decision == ProjectionPassed <==>
        BoundTo(h, d, a, s, e, p) && Spells(a.shortAnswer, ps) && receipt.Some? && RolesIntact(d, p, receipt.value, policy) &&
        forall x :: x in ps ==> SpanCloses(a, e, receipt.value.body.judgments, x)) &&
      (r.decision == ProjectionFailed <==>
        BoundTo(h, d, a, s, e, p) &&
        (!Spells(a.shortAnswer, ps) ||
         (receipt.Some? && RolesIntact(d, p, receipt.value, policy) &&
          exists x :: x in ps && SpanBroken(a, e, receipt.value.body.judgments, x))))
  {
    PropositionsValid(p);
    hide *;
    DisplayPassesExactly(h, d, a, s, e, p, receipt, policy);
    ProjectionCases(h, d, a, s, e, p, receipt, policy);
    BoundExactly(h, d, a, s, e, p);
    SpellsExactly(a, p);
    TextPassesExactly(a, p);
    RolesPassExactly(d, p, receipt, policy);
    if receipt.Some? { RoleSpans(d, a, e, p, receipt.value, policy); }
  }

  lemma RoleSpans(d: Addresses, a: Answer, e: EntailmentResult, p: Projection, r: RoleReceipt, policy: Policy)
    requires forall x :: x in p.body.propositions ==> ValidProposition(x.body)
    ensures
      var ps, roles := p.body.propositions, r.body.judgments;
      (RolesTrusted(d, p, r, policy) <==> RolesIntact(d, p, r, policy)) &&
      (RolesIntact(d, p, r, policy) ==>
        (forall x :: x in ps ==> (Closes(a, e, roles, x) <==> SpanCloses(a, e, roles, x))) &&
        (AllViolations(a, e, roles, ps) != [] <==> exists x :: x in ps && SpanBroken(a, e, roles, x)))
  {
    var ps, roles := p.body.propositions, r.body.judgments;
    assert RolesIntact(d, p, r, policy) ==> RolesMatch(ps, roles);
    hide *;
    RolesExactly(d, p, r, policy);
    if RolesIntact(d, p, r, policy) {
      forall x | x in ps ensures Closes(a, e, roles, x) <==> SpanCloses(a, e, roles, x) { ClosesExactly(a, e, roles, ps, x); }
      ViolationsBreak(a, e, roles, ps, ps);
    }
  }

  // --------------------------------------------------------------- the case set

  // Each case is content-addressed and shows its claim, the joined citations, and the
  // numeric literals of the claim that no quotation holds.
  ghost predicate ShowsClaim(h: Host, claim: Claim, c: Case) {
    c.caseId == h.caseId(c.body) && c.body.claimId == claim.claimId && c.body.claimText == claim.text && c.body.claimState == claim.state &&
    (forall i, j :: 0 <= i < j < |c.body.unquoted| ==> c.body.unquoted[i] != c.body.unquoted[j]) &&
    forall literal :: literal in c.body.unquoted <==>
      literal in h.numerals(claim.text) && forall x :: x in c.body.citations ==> literal !in h.numerals(x.exactQuote)
  }

  lemma UnquotedExactly(h: Host, text: string, citations: seq<CaseCitation>)
    ensures
      var unquoted := Unquoted(h, text, Quotes(citations));
      Distinct(unquoted) &&
      forall literal :: literal in unquoted <==>
        literal in h.numerals(text) && forall x :: x in citations ==> literal !in h.numerals(x.exactQuote)
  {
    var unquoted := Unquoted(h, text, Quotes(citations));
    var kept := Filter((literal: string) => !Quoted(h, Quotes(citations), literal), h.numerals(text));
    assert Elems(unquoted) == Elems(kept);
    forall literal ensures literal in unquoted <==> literal in kept { assert literal in unquoted <==> literal in Elems(unquoted); }
    hide StableUnique, Unquoted;
    forall literal ensures Quoted(h, Quotes(citations), literal) <==> exists x :: x in citations && literal in h.numerals(x.exactQuote) {
      QuotedExactly(h, citations, literal);
    }
  }

  lemma QuotedExactly(h: Host, citations: seq<CaseCitation>, literal: string)
    ensures Quoted(h, Quotes(citations), literal) <==> exists x :: x in citations && literal in h.numerals(x.exactQuote)
  {
    var quotes := Quotes(citations);
    if quote :| quote in quotes && literal in h.numerals(quote) {
      var i :| 0 <= i < |quotes| && quotes[i] == quote;
      assert citations[i] in citations;
    }
    if x :| x in citations && literal in h.numerals(x.exactQuote) {
      var i :| 0 <= i < |citations| && citations[i] == x;
      assert quotes[i] == x.exactQuote && quotes[i] in quotes;
    }
  }

  lemma CaseShows(h: Host, claim: Claim, citations: seq<CaseCitation>)
    ensures ShowsClaim(h, claim, CaseFor(h, claim, citations)) && CaseFor(h, claim, citations).body.citations == citations
  {
    UnquotedExactly(h, claim.text, citations);
    DistinctIndices(Unquoted(h, claim.text, Quotes(citations)));
    hide Distinct, Unquoted;
  }

  lemma {:induction false} CasesShow(h: Host, a: Answer, p: PacketData, claims: seq<Claim>, i: nat)
    requires CasesFor(h, a, p, claims).Ok? && i < |claims|
    ensures |CasesFor(h, a, p, claims).value| == |claims| && ShowsClaim(h, claims[i], CasesFor(h, a, p, claims).value[i])
  {
    hide Joined, ValidAnswer, ShowsClaim, CaseFor;
    CasesMirrorClaims(h, a, p, claims);
    var n := |claims| - 1;
    if i < n {
      CasesShow(h, a, p, claims[..n], i);
    } else {
      CasesMirrorClaims(h, a, p, claims[..n]);
      CaseShows(h, claims[n], Joined(a, p, claims[n].claimId, claims[n].evidenceIds).value);
    }
  }

  // A citation of the answer that packet evidence and its source bear out.
  ghost predicate Joins(a: Answer, p: PacketData, id: Id) {
    exists citation, evidence, source ::
      citation in a.citations && evidence in p.evidence && source in p.sources &&
      citation.evidenceId == evidence.evidenceId == id && citation.sourceId == evidence.sourceId == source.sourceId
  }

  lemma JoinsExactly(a: Answer, p: PacketData, claimId: Id, id: Id)
    requires UniqueBy(p.evidence, ShownEvidenceKey) && UniqueBy(p.sources, ShownSourceKey)
    ensures JoinCitation(a, p, claimId, id).Ok? <==> Joins(a, p, id)
  {
    assert UniqueBy(a.citations, CitationKey);
    hide ValidAnswer, UniqueBy, FindBy;
    if citation, evidence, source :|
      citation in a.citations && evidence in p.evidence && source in p.sources &&
      citation.evidenceId == evidence.evidenceId == id && citation.sourceId == evidence.sourceId == source.sourceId
    {
      FindByKey(CitationKey, a.citations, citation);
      FindByKey(ShownEvidenceKey, p.evidence, evidence);
      FindByKey(ShownSourceKey, p.sources, source);
    }
  }

  lemma {:induction false} AllJoin(a: Answer, p: PacketData, claimId: Id, ids: seq<Id>)
    requires UniqueBy(p.evidence, ShownEvidenceKey) && UniqueBy(p.sources, ShownSourceKey)
    ensures Joined(a, p, claimId, ids).Ok? <==> forall id :: id in ids ==> Joins(a, p, id)
  {
    hide ValidAnswer, UniqueBy, JoinCitation, Joins;
    if ids != [] {
      var front, last := ids[..|ids| - 1], ids[|ids| - 1];
      AllJoin(a, p, claimId, front);
      JoinsExactly(a, p, claimId, last);
      assert ids == front + [last];
    }
  }

  lemma {:induction false} AllClaimsJoin(h: Host, a: Answer, p: PacketData, claims: seq<Claim>)
    requires UniqueBy(p.evidence, ShownEvidenceKey) && UniqueBy(p.sources, ShownSourceKey)
    ensures CasesFor(h, a, p, claims).Ok? <==> forall claim, id :: claim in claims && id in claim.evidenceIds ==> Joins(a, p, id)
  {
    hide ValidAnswer, UniqueBy, Joined, Joins, CaseFor;
    if claims != [] {
      var front, last := claims[..|claims| - 1], claims[|claims| - 1];
      AllClaimsJoin(h, a, p, front);
      AllJoin(a, p, last.claimId, last.evidenceIds);
      assert claims == front + [last];
    }
  }

  ghost predicate AllJoined(a: Answer, p: PacketData) {
    forall claim, id :: claim in a.claims && id in claim.evidenceIds ==> Joins(a, p, id)
  }

  ghost predicate Agreed(a: Answer, p: PacketData, spec: CoverageSpec, taskId: Id) {
    a.taskId == taskId && spec.taskId == taskId && a.packet == p.ref && spec.packet == p.ref
  }

  // The set binds answer, packet and coverage spec, and shows each claim in one case.
  ghost predicate SetSays(h: Host, a: Answer, p: PacketData, spec: CoverageSpec, taskId: Id, s: CaseSet) {
    s.ref == h.caseSetRef(s.body) && s.body.taskId == taskId && s.body.answer == h.answerRef(a) && s.body.packet == p.ref &&
    s.body.coverageSpec == spec.ref && |s.body.cases| == |a.claims| &&
    (forall i :: 0 <= i < |a.claims| ==> ShowsClaim(h, a.claims[i], s.body.cases[i])) &&
    forall i, j :: 0 <= i < j < |s.body.cases| ==> s.body.cases[i].caseId != s.body.cases[j].caseId
  }

  // Different cases have different addresses.
  ghost predicate Collisionless(h: Host) {
    forall x, y :: h.caseId(x) == h.caseId(y) ==> x == y
  }

  // The builder succeeds exactly when task and packet agree and every citation joins;
  // only colliding case addresses can stop it then.
  lemma CaseSetExactly(h: Host, a: Answer, p: PacketData, spec: CoverageSpec, taskId: Id)
    requires UniqueBy(p.evidence, ShownEvidenceKey) && UniqueBy(p.sources, ShownSourceKey)
    ensures
      var r := CaseSetFor(h, a, p, spec, taskId);
      (r == Err(TaskMismatch) <==> a.taskId != taskId || spec.taskId != taskId) &&
      (r == Err(PacketMismatch) <==> a.taskId == taskId && spec.taskId == taskId && (a.packet != p.ref || spec.packet != p.ref)) &&
      (r.Ok? ==> Agreed(a, p, spec, taskId) && AllJoined(a, p) && SetSays(h, a, p, spec, taskId, r.value)) &&
      (Agreed(a, p, spec, taskId) && AllJoined(a, p) && Collisionless(h) ==> r.Ok?)
  {
    AllClaimsJoin(h, a, p, a.claims);
    hide ValidAnswer, Joins, Joined, CaseFor, Distinct, SetSays, Collisionless, UniqueBy, CasesFor, ValidCaseSet;
    NoOtherErrors(h, a, p, a.claims);
    var cases := CasesFor(h, a, p, a.claims);
    if cases.Ok? {
      var body := CaseSetBody(taskId, h.answerRef(a), p.ref, spec.ref, cases.value);
      CasesStandAlone(h, a, p, cases.value);
      if ValidCaseSet(h, CaseSet(h.caseSetRef(body), body)) { BuiltSetSays(h, a, p, spec, taskId, cases.value); }
      if Collisionless(h) { assert ValidCaseSet(h, CaseSet(h.caseSetRef(body), body)) by { SetIsValid(h, CaseSet(h.caseSetRef(body), body)); } }
    }
  }

  lemma SetIsValid(h: Host, s: CaseSet)
    requires UniqueBy(s.body.cases, CaseKey) && UniqueBy(s.body.cases, CaseClaim) && s.ref == h.caseSetRef(s.body)
    ensures ValidCaseSet(h, s)
  {
  }

  lemma CasesStandAlone(h: Host, a: Answer, p: PacketData, cases: seq<Case>)
    requires CasesFor(h, a, p, a.claims) == Ok(cases)
    ensures UniqueBy(cases, CaseClaim) && (Collisionless(h) ==> UniqueBy(cases, CaseKey))
    ensures |cases| == |a.claims| && forall i :: 0 <= i < |cases| ==> ShowsClaim(h, a.claims[i], cases[i])
  {
    assert UniqueBy(a.claims, ClaimKey);
    CasesMirrorClaims(h, a, p, a.claims);
    forall i | 0 <= i < |a.claims| ensures ShowsClaim(h, a.claims[i], cases[i]) { CasesShow(h, a, p, a.claims, i); }
    hide ValidAnswer, CasesFor, Joined, Distinct;
    assert Map(CaseClaim, cases) == Map(ClaimKey, a.claims);
    if Collisionless(h) { AddressesDiffer(h, a, cases); }
  }

  lemma AddressesDiffer(h: Host, a: Answer, cases: seq<Case>)
    requires Collisionless(h) && UniqueBy(cases, CaseClaim) && |cases| == |a.claims|
    requires forall i :: 0 <= i < |cases| ==> ShowsClaim(h, a.claims[i], cases[i])
    ensures UniqueBy(cases, CaseKey)
  {
    DistinctIndices(Map(CaseClaim, cases));
    CaseIdsDiffer(cases);
    hide Distinct, ValidAnswer;
    forall i, j | 0 <= i < j < |cases| ensures cases[i].caseId != cases[j].caseId {
      assert Map(CaseClaim, cases)[i] != Map(CaseClaim, cases)[j];
      assert ShowsClaim(h, a.claims[i], cases[i]) && ShowsClaim(h, a.claims[j], cases[j]);
    }
  }

  lemma BuiltSetSays(h: Host, a: Answer, p: PacketData, spec: CoverageSpec, taskId: Id, cases: seq<Case>)
    requires var body := CaseSetBody(taskId, h.answerRef(a), p.ref, spec.ref, cases); ValidCaseSet(h, CaseSet(h.caseSetRef(body), body))
    requires |cases| == |a.claims| && forall i :: 0 <= i < |cases| ==> ShowsClaim(h, a.claims[i], cases[i])
    ensures var body := CaseSetBody(taskId, h.answerRef(a), p.ref, spec.ref, cases);
            SetSays(h, a, p, spec, taskId, CaseSet(h.caseSetRef(body), body))
  {
    hide ValidAnswer, Distinct, ShowsClaim;
    CaseIdsDiffer(cases);
  }

  lemma CaseIdsDiffer(cases: seq<Case>)
    ensures UniqueBy(cases, CaseKey) <==> forall i, j :: 0 <= i < j < |cases| ==> cases[i].caseId != cases[j].caseId
  {
    DistinctIndices(Map(CaseKey, cases));
    hide Distinct;
  }

  lemma {:induction false} NoOtherErrors(h: Host, a: Answer, p: PacketData, claims: seq<Claim>)
    ensures CasesFor(h, a, p, claims) != Err(TaskMismatch) && CasesFor(h, a, p, claims) != Err(PacketMismatch)
  {
    hide ValidAnswer, Joined, CaseFor;
    if claims != [] {
      var last := claims[|claims| - 1];
      NoOtherErrors(h, a, p, claims[..|claims| - 1]);
      NoJoinErrors(a, p, last.claimId, last.evidenceIds);
    }
  }

  lemma {:induction false} NoJoinErrors(a: Answer, p: PacketData, claimId: Id, ids: seq<Id>)
    ensures Joined(a, p, claimId, ids) != Err(TaskMismatch) && Joined(a, p, claimId, ids) != Err(PacketMismatch)
  {
    hide ValidAnswer;
    if ids != [] { NoJoinErrors(a, p, claimId, ids[..|ids| - 1]); }
  }
}
