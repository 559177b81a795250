// What the answer gates report: every finding, and when exactly it is there.

module FindingRecords {
  import opened Common
  import opened RouteGraph
  import opened ClaimEntailment
  import opened AnswerProjection
  import opened AnswerSoundness
  import opened GateRecords

  // ------------------------------------------------------------- first matches

  // The first judgment for a case.
  ghost predicate FirstFor(judgments: seq<Judgment>, caseId: Id, j: Judgment) {
    exists i :: 0 <= i < |judgments| && judgments[i] == j && j.caseId == caseId && forall k :: 0 <= k < i ==> judgments[k].caseId != caseId
  }

  lemma {:induction false} FirstExactly(judgments: seq<Judgment>, caseId: Id, j: Judgment)
    ensures JudgmentFor(judgments, caseId) == Some(j) <==> FirstFor(judgments, caseId, j)
  {
    if judgments != [] {
      FirstExactly(judgments[1..], caseId, j);
      FirstCons(judgments, caseId, j);
      hide FirstFor;
    }
  }

  lemma FirstCons(judgments: seq<Judgment>, caseId: Id, j: Judgment)
    requires judgments != []
    ensures FirstFor(judgments, caseId, j) <==>
            if judgments[0].caseId == caseId then j == judgments[0] else FirstFor(judgments[1..], caseId, j)
  {
    var rest := judgments[1..];
    if judgments[0].caseId == caseId && j == judgments[0] { assert judgments[0] == j; }
    if judgments[0].caseId != caseId && FirstFor(rest, caseId, j) {
      var i :| 0 <= i < |rest| && rest[i] == j && forall k :: 0 <= k < i ==> rest[k].caseId != caseId;
      forall k | 0 <= k < i + 1 ensures judgments[k].caseId != caseId { if k > 0 { assert judgments[k] == rest[k - 1]; } }
      assert judgments[i + 1] == j;
    }
    if judgments[0].caseId != caseId && FirstFor(judgments, caseId, j) {
      var i :| 0 <= i < |judgments| && judgments[i] == j && j.caseId == caseId && forall k :: 0 <= k < i ==> judgments[k].caseId != caseId;
      forall k | 0 <= k < i - 1 ensures rest[k].caseId != caseId { assert judgments[k + 1] == rest[k]; }
      assert rest[i - 1] == j;
    }
  }

  // -------------------------------------------------------------- failed joins

  // The answer's citation of this evidence and the packet's evidence itself.
  predicate Cited(a: Answer, p: PacketData, id: Id, citation: Citation, evidence: ShownEvidence) {
    citation in a.citations && evidence in p.evidence && citation.evidenceId == evidence.evidenceId == id
  }

  // Why a claim's evidence does not join.
  ghost predicate JoinFails(a: Answer, p: PacketData, claimId: Id, id: Id, e: BuildError) {
    match e
    case NotJoined(c) => c == claimId && ((forall x :: x in a.citations ==> x.evidenceId != id) || Unshown(p, id))
    case WrongSource(i) => i == id && exists x, y :: Cited(a, p, id, x, y) && x.sourceId != y.sourceId
    case SourceMissing(i) => i == id && exists x, y :: Cited(a, p, id, x, y) && x.sourceId == y.sourceId && Sourceless(p, x.sourceId)
    case _ => false
  }

  predicate Unshown(p: PacketData, id: Id) { forall x :: x in p.evidence ==> x.evidenceId != id }

  predicate Sourceless(p: PacketData, id: Id) { forall x :: x in p.sources ==> x.sourceId != id }

  lemma JoinFailsExactly(a: Answer, p: PacketData, claimId: Id, id: Id, e: BuildError)
    requires UniqueBy(p.evidence, ShownEvidenceKey) && UniqueBy(p.sources, ShownSourceKey)
    ensures JoinCitation(a, p, claimId, id) == Err(e) <==> JoinFails(a, p, claimId, id, e)
  {
    assert UniqueBy(a.citations, CitationKey);
    forall x, y | Cited(a, p, id, x, y)
      ensures FindBy(CitationKey, a.citations, id) == Some(x) && FindBy(ShownEvidenceKey, p.evidence, id) == Some(y)
    {
      FindByKey(CitationKey, a.citations, x);
      FindByKey(ShownEvidenceKey, p.evidence, y);
    }
    hide ValidAnswer, UniqueBy, FindBy;
    match (FindBy(CitationKey, a.citations, id), FindBy(ShownEvidenceKey, p.evidence, id)) {
      case (Some(x), Some(y)) => assert Cited(a, p, id, x, y);
      case (_, _) =>
    }
  }

  // The first evidence of a claim that does not join, and why.
  ghost predicate FailsAt(a: Answer, p: PacketData, claim: Claim, k: int, e: BuildError) {
    0 <= k < |claim.evidenceIds| && JoinFails(a, p, claim.claimId, claim.evidenceIds[k], e) &&
    forall i :: 0 <= i < k ==> Joins(a, p, claim.evidenceIds[i])
  }

  ghost predicate ClaimFails(a: Answer, p: PacketData, claim: Claim, e: BuildError) {
    exists k :: FailsAt(a, p, claim, k, e)
  }

  // The first claim that does not join, and why.
  ghost predicate ClaimFailsAt(a: Answer, p: PacketData, claims: seq<Claim>, k: int, e: BuildError) {
    0 <= k < |claims| && ClaimFails(a, p, claims[k], e) &&
    forall i, id :: 0 <= i < k && id in claims[i].evidenceIds ==> Joins(a, p, id)
  }

  lemma {:induction false} JoinedFailsExactly(a: Answer, p: PacketData, claim: Claim, n: nat, e: BuildError)
    requires UniqueBy(p.evidence, ShownEvidenceKey) && UniqueBy(p.sources, ShownSourceKey)
    requires n <= |claim.evidenceIds|
    ensures Joined(a, p, claim.claimId, claim.evidenceIds[..n]) == Err(e) <==> FailsBelow(a, p, claim, n, e)
  {
    var ids := claim.evidenceIds;
    FailsBelowStep(a, p, claim, n, e);
    if n > 0 {
      assert ids[..n][..n - 1] == ids[..n - 1] && ids[..n][n - 1] == ids[n - 1];
      JoinedFailsExactly(a, p, claim, n - 1, e);
      AllJoin(a, p, claim.claimId, ids[..n - 1]);
      JoinFailsExactly(a, p, claim.claimId, ids[n - 1], e);
      hide ValidAnswer, UniqueBy, JoinCitation, JoinFails, Joins, FailsAt, FailsBelow;
    }
  }

  ghost predicate FailsBelow(a: Answer, p: PacketData, claim: Claim, n: nat, e: BuildError) {
    exists k :: k < n && FailsAt(a, p, claim, k, e)
  }

  lemma FailsBelowStep(a: Answer, p: PacketData, claim: Claim, n: nat, e: BuildError)
    requires n <= |claim.evidenceIds|
    ensures
      var ids := claim.evidenceIds;
      FailsBelow(a, p, claim, n, e) <==>
      n > 0 &&
      (FailsBelow(a, p, claim, n - 1, e) ||
       (JoinFails(a, p, claim.claimId, ids[n - 1], e) && forall id :: id in ids[..n - 1] ==> Joins(a, p, id)))
  {
    hide JoinFails, Joins;
    if n > 0 {
      var front := claim.evidenceIds[..n - 1];
      assert (forall id :: id in front ==> Joins(a, p, id)) <==> forall i :: 0 <= i < n - 1 ==> Joins(a, p, claim.evidenceIds[i]) by {
        if forall id :: id in front ==> Joins(a, p, id) {
          forall i | 0 <= i < n - 1 ensures Joins(a, p, claim.evidenceIds[i]) { assert front[i] in front; }
        }
      }
      assert FailsAt(a, p, claim, n - 1, e) <==>
             JoinFails(a, p, claim.claimId, claim.evidenceIds[n - 1], e) && forall id :: id in front ==> Joins(a, p, id);
      hide FailsAt;
    }
  }

  lemma {:induction false} CasesFailExactly(h: Host, a: Answer, p: PacketData, claims: seq<Claim>, e: BuildError)
    requires UniqueBy(p.evidence, ShownEvidenceKey) && UniqueBy(p.sources, ShownSourceKey)
    ensures CasesFor(h, a, p, claims) == Err(e) <==> exists k :: ClaimFailsAt(a, p, claims, k, e)
  {
    hide ValidAnswer, UniqueBy, Joined, Joins, CaseFor, ClaimFails;
    if claims != [] {
      var n := |claims| - 1;
      CasesFailExactly(h, a, p, claims[..n], e);
      AllClaimsJoin(h, a, p, claims[..n]);
      ClaimFailsIs(a, p, claims[n], e);
      if k :| ClaimFailsAt(a, p, claims[..n], k, e) { assert ClaimFailsAt(a, p, claims, k, e); }
      if k :| ClaimFailsAt(a, p, claims, k, e) && k < n { assert ClaimFailsAt(a, p, claims[..n], k, e); }
      if ClaimFailsAt(a, p, claims, n, e) {
        forall claim, id | claim in claims[..n] && id in claim.evidenceIds ensures Joins(a, p, id) {
          var i :| 0 <= i < n && claims[i] == claim;
        }
      }
      if CasesFor(h, a, p, claims[..n]).Ok? && ClaimFails(a, p, claims[n], e) { assert ClaimFailsAt(a, p, claims, n, e); }
    }
  }

  lemma ClaimFailsIs(a: Answer, p: PacketData, claim: Claim, e: BuildError)
    requires UniqueBy(p.evidence, ShownEvidenceKey) && UniqueBy(p.sources, ShownSourceKey)
    ensures Joined(a, p, claim.claimId, claim.evidenceIds) == Err(e) <==> ClaimFails(a, p, claim, e)
  {
    var n := |claim.evidenceIds|;
    assert claim.evidenceIds[..n] == claim.evidenceIds;
    JoinedFailsExactly(a, p, claim, n, e);
    hide Joined, ValidAnswer, JoinFails, Joins, UniqueBy;
    if k :| FailsAt(a, p, claim, k, e) { assert k < n && FailsBelow(a, p, claim, n, e); }
  }

  // The builder's error once task and packet agree: why the first citation that does
  // not join fails, in the order of the claims.
  lemma BuildErrorExactly(h: Host, a: Answer, p: PacketData, spec: CoverageSpec, taskId: Id, e: BuildError)
    requires UniqueBy(p.evidence, ShownEvidenceKey) && UniqueBy(p.sources, ShownSourceKey)
    requires Agreed(a, p, spec, taskId) && e != CaseIdsRepeat
    ensures CaseSetFor(h, a, p, spec, taskId) == Err(e) <==> exists k :: ClaimFailsAt(a, p, a.claims, k, e)
  {
    CasesFailExactly(h, a, p, a.claims, e);
    hide CasesFor, ClaimFailsAt, ValidAnswer, UniqueBy, ValidCaseSet;
  }

  // -------------------------------------------------------- results of the cases

  // The result of one case: its first judgment with the decision its verdict makes,
  // or nothing to decide on.
  ghost predicate ResultSays(c: Case, judgments: seq<Judgment>, x: CaseResult) {
    x.caseId == c.caseId && x.claimId == c.body.claimId && x.claimState == c.body.claimState &&
    if exists j :: j in judgments && j.caseId == c.caseId then
      exists j :: FirstFor(judgments, c.caseId, j) && x.verdict == Some(j.verdict) && x.spans == j.spans && x.reason == j.reason &&
        x.decision == ClaimDecision(c.body.claimState, j.verdict)
    else x.verdict == None && x.decision == EntailmentReview && x.spans == [] && x.reason == "semantic judgment is missing"
  }

  lemma ResultExactly(c: Case, judgments: seq<Judgment>)
    ensures ResultSays(c, judgments, ResultOfCase(c, judgments))
  {
    match JudgmentFor(judgments, c.caseId)
    case None =>
    case Some(j) =>
      assert j in judgments && JudgmentCase(j) == c.caseId;
      FirstExactly(judgments, c.caseId, j);
      hide FirstFor, ClaimDecision, FindBy;
  }

  // -------------------------------------------------------------- span errors

  // Which span error a judgment raises: spans beside a supporting verdict, or the
  // first span that is not a part of the text.
  lemma {:induction false} FirstSpanErrorExactly(text: string, spans: seq<Span>, e: SpanError)
    ensures FirstSpanError(text, spans) == Some(e) <==> exists i :: FirstBad(text, spans, i, e)
  {
    if spans != [] {
      FirstSpanErrorExactly(text, spans[1..], e);
      FirstBadStep(text, spans, e);
      if spans[0].end <= |text| { SliceExactly(text, spans[0]); }
      hide ExactIn, Slice, FirstBad;
    }
  }

  lemma FirstBadStep(text: string, spans: seq<Span>, e: SpanError)
    requires spans != []
    ensures (exists i :: FirstBad(text, spans, i, e)) <==>
            if spans[0].end > |text| then e == SpanOutside
            else if !ExactIn(text, spans[0]) then e == SpanNotExact
            else exists i :: FirstBad(text, spans[1..], i, e)
  {
    hide ExactIn;
    var rest := spans[1..];
    if spans[0].end > |text| || !ExactIn(text, spans[0]) {
      if i :| FirstBad(text, spans, i, e) { assert i == 0; }
      if e == (if spans[0].end > |text| then SpanOutside else SpanNotExact) { assert FirstBad(text, spans, 0, e); }
    } else {
      if i :| FirstBad(text, spans, i, e) {
        forall k | 0 <= k < i - 1 ensures rest[k].end <= |text| && ExactIn(text, rest[k]) { assert rest[k] == spans[k + 1]; }
        assert FirstBad(text, rest, i - 1, e);
      }
      if i :| FirstBad(text, rest, i, e) {
        forall k | 0 <= k < i + 1 ensures spans[k].end <= |text| && ExactIn(text, spans[k]) { if k > 0 { assert spans[k] == rest[k - 1]; } }
        assert FirstBad(text, spans, i + 1, e);
      }
    }
  }

  ghost predicate FirstBad(text: string, spans: seq<Span>, i: int, e: SpanError) {
    0 <= i < |spans| && (forall k :: 0 <= k < i ==> spans[k].end <= |text| && ExactIn(text, spans[k])) &&
    if spans[i].end > |text| then e == SpanOutside else !ExactIn(text, spans[i]) && e == SpanNotExact
  }

  lemma SpanErrorExactly(text: string, j: Judgment, e: SpanError)
    ensures SpanErrorOf(text, j) == Some(e) <==>
            if (j.verdict == DirectlySupported || j.verdict == SupportedInference) && j.spans != [] then e == SupportWithSpans
            else exists i :: FirstBad(text, j.spans, i, e)
  {
    FirstSpanErrorExactly(text, j.spans, e);
    hide FirstBad, FirstSpanError;
  }

  // ------------------------------------------------------ the entailment findings

  ghost predicate CaseTwice(judgments: seq<Judgment>, id: Id) {
    exists i, j :: 0 <= i < j < |judgments| && judgments[i].caseId == judgments[j].caseId == id
  }

  ghost predicate ClaimTwice(judgments: seq<Judgment>, id: Id) {
    exists i, j :: 0 <= i < j < |judgments| && judgments[i].claimId == judgments[j].claimId == id
  }

  predicate HasCase(cases: seq<Case>, id: Id) { exists c :: c in cases && c.caseId == id }

  predicate HasClaim(cases: seq<Case>, id: Id) { exists c :: c in cases && c.body.claimId == id }

  predicate JudgesCase(judgments: seq<Judgment>, id: Id) { exists j :: j in judgments && j.caseId == id }

  predicate JudgesClaim(judgments: seq<Judgment>, id: Id) { exists j :: j in judgments && j.claimId == id }

  // What must be wrong with a receipt for each finding.
  ghost predicate Wrong(h: Host, s: CaseSet, r: Receipt, policy: Policy, f: Finding) {
    var cases, judgments, judge := s.body.cases, r.body.judgments, r.body.judge;
    match f
    case ReceiptMissing => false
    case ReceiptIdWrong => r.ref.id != h.receiptRef(r.body).id
    case ReceiptHashWrong => r.ref.hash != h.receiptRef(r.body).hash
    case OtherCaseSet => r.body.caseSet != s.ref
    case WrongJudgeKind => policy.kind.Some? && judge.kind != policy.kind.value
    case WrongProfileId => policy.profileId.Some? && judge.profileId != policy.profileId.value
    case WrongProfileHash => policy.profileHash.Some? && judge.profileHash != policy.profileHash.value
    case WrongPrompt => policy.promptHash.Some? && judge.promptHash != policy.promptHash.value
    case WrongRawResponse => policy.rawHash.Some? && judge.rawHash != policy.rawHash.value
    case DuplicateCases(ids) => ids != {} && forall id :: id in ids <==> CaseTwice(judgments, id)
    case DuplicateClaims(ids) => ids != {} && forall id :: id in ids <==> ClaimTwice(judgments, id)
    case MissingCases(ids) => ids != {} && forall id :: id in ids <==> HasCase(cases, id) && !JudgesCase(judgments, id)
    case ExtraCases(ids) => ids != {} && forall id :: id in ids <==> JudgesCase(judgments, id) && !HasCase(cases, id)
    case ExtraClaims(ids) => ids != {} && forall id :: id in ids <==> JudgesClaim(judgments, id) && !HasClaim(cases, id)
    case NamesOtherClaim(caseId, named) => exists c :: c in cases && OtherNamed(c, judgments, caseId, named)
    case BadSpan(caseId, e) => exists c :: c in cases && SpanBad(c, judgments, caseId, e)
    case CaseUncertain(_) => false
  }

  ghost predicate OtherNamed(c: Case, judgments: seq<Judgment>, caseId: Id, named: Id) {
    c.caseId == caseId && named != c.body.claimId && exists j :: FirstFor(judgments, caseId, j) && j.claimId == named
  }

  ghost predicate SpanBad(c: Case, judgments: seq<Judgment>, caseId: Id, e: SpanError) {
    c.caseId == caseId && exists j :: FirstFor(judgments, caseId, j) && SpanErrorOf(c.body.claimText, j) == Some(e)
  }

  lemma RepeatedAt(values: seq<Id>, id: Id)
    ensures id in Repeated(values) <==> exists i, j :: 0 <= i < j < |values| && values[i] == values[j] == id
  {
  }

  lemma CaseTwiceExactly(judgments: seq<Judgment>, id: Id)
    ensures id in Repeated(Map(JudgmentCase, judgments)) <==> CaseTwice(judgments, id)
  {
    var a := Map(JudgmentCase, judgments);
    RepeatedAt(a, id);
    hide Repeated, Map;
    if i, j :| 0 <= i < j < |judgments| && judgments[i].caseId == judgments[j].caseId == id { assert a[i] == a[j] == id; }
    if i, j :| 0 <= i < j < |a| && a[i] == a[j] == id { assert judgments[i].caseId == judgments[j].caseId == id; }
  }

  lemma ClaimTwiceExactly(judgments: seq<Judgment>, id: Id)
    ensures id in Repeated(Map(JudgmentClaim, judgments)) <==> ClaimTwice(judgments, id)
  {
    var b := Map(JudgmentClaim, judgments);
    RepeatedAt(b, id);
    hide Repeated, Map;
    if i, j :| 0 <= i < j < |judgments| && judgments[i].claimId == judgments[j].claimId == id { assert b[i] == b[j] == id; }
    if i, j :| 0 <= i < j < |b| && b[i] == b[j] == id { assert judgments[i].claimId == judgments[j].claimId == id; }
  }

  lemma NamedExactly(cases: seq<Case>, judgments: seq<Judgment>, id: Id)
    ensures id in Elems(Map(CaseKey, cases)) <==> HasCase(cases, id)
    ensures id in Elems(Map(CaseClaim, cases)) <==> HasClaim(cases, id)
    ensures id in Elems(Map(JudgmentCase, judgments)) <==> JudgesCase(judgments, id)
    ensures id in Elems(Map(JudgmentClaim, judgments)) <==> JudgesClaim(judgments, id)
  {
    MapElems(CaseKey, cases);
    MapElems(CaseClaim, cases);
    MapElems(JudgmentCase, judgments);
    MapElems(JudgmentClaim, judgments);
    hide Map, Elems;
  }

  lemma IntegrityExactly(h: Host, s: CaseSet, r: Receipt, policy: Policy, f: Finding)
    ensures f in IntegrityErrors(h, s, r, policy) <==>
            Wrong(h, s, r, policy, f) && !f.DuplicateCases? && !f.DuplicateClaims? && !f.MissingCases? && !f.ExtraCases? && !f.ExtraClaims? &&
            !f.NamesOtherClaim? && !f.BadSpan?
  {
    hide CaseTwice, ClaimTwice, HasCase, HasClaim, JudgesCase, JudgesClaim, OtherNamed, SpanBad;
  }

  lemma SetErrorIs(cases: seq<Case>, judgments: seq<Judgment>, f: Finding)
    ensures
      var caseIds, claimIds := Elems(Map(CaseKey, cases)), Elems(Map(CaseClaim, cases));
      var judgedCases, judgedClaims := Map(JudgmentCase, judgments), Map(JudgmentClaim, judgments);
      f in SetErrors(cases, judgments) <==>
      match f
      case DuplicateCases(ids) => ids != {} && ids == Repeated(judgedCases)
      case DuplicateClaims(ids) => ids != {} && ids == Repeated(judgedClaims)
      case MissingCases(ids) => ids != {} && ids == caseIds - Elems(judgedCases)
      case ExtraCases(ids) => ids != {} && ids == Elems(judgedCases) - caseIds
      case ExtraClaims(ids) => ids != {} && ids == Elems(judgedClaims) - claimIds
      case _ => false
  {
    hide Map, Elems, Repeated;
  }

  lemma SetErrorsExactly(h: Host, s: CaseSet, r: Receipt, policy: Policy, f: Finding)
    ensures f in SetErrors(s.body.cases, r.body.judgments) <==>
            Wrong(h, s, r, policy, f) && (f.DuplicateCases? || f.DuplicateClaims? || f.MissingCases? || f.ExtraCases? || f.ExtraClaims?)
  {
    var cases, judgments := s.body.cases, r.body.judgments;
    SetErrorIs(cases, judgments, f);
    hide SetErrors, Map, Elems, Repeated, CaseTwice, ClaimTwice, HasCase, HasClaim, JudgesCase, JudgesClaim, OtherNamed, SpanBad;
    match f {
      case DuplicateCases(_) =>
        forall id ensures id in Repeated(Map(JudgmentCase, judgments)) <==> CaseTwice(judgments, id) { CaseTwiceExactly(judgments, id); }
      case DuplicateClaims(_) =>
        forall id ensures id in Repeated(Map(JudgmentClaim, judgments)) <==> ClaimTwice(judgments, id) { ClaimTwiceExactly(judgments, id); }
      case MissingCases(_) =>
        forall id ensures id in Elems(Map(CaseKey, cases)) - Elems(Map(JudgmentCase, judgments)) <==>
          HasCase(cases, id) && !JudgesCase(judgments, id) { NamedExactly(cases, judgments, id); }
      case ExtraCases(_) =>
        forall id ensures id in Elems(Map(JudgmentCase, judgments)) - Elems(Map(CaseKey, cases)) <==>
          JudgesCase(judgments, id) && !HasCase(cases, id) { NamedExactly(cases, judgments, id); }
      case ExtraClaims(_) =>
        forall id ensures id in Elems(Map(JudgmentClaim, judgments)) - Elems(Map(CaseClaim, cases)) <==>
          JudgesClaim(judgments, id) && !HasClaim(cases, id) { NamedExactly(cases, judgments, id); }
      case _ =>
    }
  }

  lemma CaseErrorExactly(c: Case, judgments: seq<Judgment>, f: Finding)
    ensures f in ErrorsOfCase(c, judgments) <==>
            (f.NamesOtherClaim? && OtherNamed(c, judgments, f.caseId, f.named)) || (f.BadSpan? && SpanBad(c, judgments, f.caseId, f.error))
  {
    forall j ensures JudgmentFor(judgments, c.caseId) == Some(j) <==> FirstFor(judgments, c.caseId, j) { FirstExactly(judgments, c.caseId, j); }
    hide FirstFor, SpanErrorOf, JudgmentFor;
  }

  lemma {:induction false} CaseErrorsExactly(cases: seq<Case>, judgments: seq<Judgment>, f: Finding)
    ensures f in ErrorsOf(cases, judgments) <==>
            exists c :: c in cases &&
              ((f.NamesOtherClaim? && OtherNamed(c, judgments, f.caseId, f.named)) || (f.BadSpan? && SpanBad(c, judgments, f.caseId, f.error)))
  {
    hide ErrorsOfCase, OtherNamed, SpanBad;
    if cases != [] {
      var front, last := cases[..|cases| - 1], cases[|cases| - 1];
      CaseErrorsExactly(front, judgments, f);
      CaseErrorExactly(last, judgments, f);
      assert cases == front + [last];
    }
  }

  // The reasons for a review: everything wrong with the receipt, or, when nothing
  // is, every claim whose result is uncertain.
  lemma ReasonsExactly(
    h: Host, s: CaseSet, contract: ContractResult, coverage: CoverageResult, r: Receipt, policy: Policy, f: Finding)
    requires Accepted(s, contract, coverage)
    ensures
      var e := EntailmentOutcome(h, s, contract, coverage, Some(r), policy);
      |e.cases| == |s.body.cases| && (forall i :: 0 <= i < |e.cases| ==> ResultSays(s.body.cases[i], r.body.judgments, e.cases[i])) &&
      (f in e.reviewReasons <==>
        Wrong(h, s, r, policy, f) ||
        ((forall g :: !Wrong(h, s, r, policy, g)) &&
         exists x :: x in e.cases && x.decision == EntailmentReview && f == CaseUncertain(x.claimId)))
  {
    var cases, judgments := s.body.cases, r.body.judgments;
    var results := ResultsOf(cases, judgments);
    var errors := IntegrityErrors(h, s, r, policy) + SetErrors(cases, judgments) + ErrorsOf(cases, judgments);
    OutcomeIsJudged(h, s, contract, coverage, r, policy);
    forall i | 0 <= i < |cases| ensures ResultSays(cases[i], judgments, results[i]) { ResultExactly(cases[i], judgments); }
    forall g ensures g in errors <==> Wrong(h, s, r, policy, g) { ErrorsExactly(h, s, r, policy, g); }
    hide EntailmentOutcome, ResultSays, Wrong, ResultsOf, IntegrityErrors, SetErrors, ErrorsOf, Accepted;
    JudgedReasons(s, r, results, errors, f);
    if errors != [] { assert errors[0] in errors; }
  }

  lemma OutcomeIsJudged(
    h: Host, s: CaseSet, contract: ContractResult, coverage: CoverageResult, r: Receipt, policy: Policy)
    requires Accepted(s, contract, coverage)
    ensures
      var cases, judgments := s.body.cases, r.body.judgments;
      var errors := IntegrityErrors(h, s, r, policy) + SetErrors(cases, judgments) + ErrorsOf(cases, judgments);
      EntailmentOutcome(h, s, contract, coverage, Some(r), policy) == Judged(s, r, ResultsOf(cases, judgments), errors)
  {
    hide IntegrityErrors, SetErrors, ErrorsOf, ResultsOf, Judged;
  }

  lemma ErrorsExactly(h: Host, s: CaseSet, r: Receipt, policy: Policy, f: Finding)
    ensures f in IntegrityErrors(h, s, r, policy) + SetErrors(s.body.cases, r.body.judgments) + ErrorsOf(s.body.cases, r.body.judgments) <==>
            Wrong(h, s, r, policy, f)
  {
    IntegrityExactly(h, s, r, policy, f);
    SetErrorsExactly(h, s, r, policy, f);
    CaseErrorsExactly(s.body.cases, r.body.judgments, f);
    hide IntegrityErrors, SetErrors, ErrorsOf, CaseTwice, ClaimTwice, HasCase, HasClaim, JudgesCase, JudgesClaim, OtherNamed, SpanBad;
  }

  lemma JudgedReasons(s: CaseSet, r: Receipt, results: seq<CaseResult>, errors: seq<Finding>, f: Finding)
    ensures
      var e := Judged(s, r, results, errors);
      e.cases == results &&
      (f in e.reviewReasons <==>
        if errors != [] then f in errors
        else exists x :: x in results && x.decision == EntailmentReview && f == CaseUncertain(x.claimId))
  {
    var ids := ClaimsDecided(results, EntailmentReview);
    var reasons := Map(id => CaseUncertain(id), ids);
    forall id ensures id in ids <==> exists x :: x in results && x.claimId == id && x.decision == EntailmentReview {
      DecidedClaims(results, EntailmentReview, id);
    }
    hide ClaimsDecided;
    if f in reasons {
      var i :| 0 <= i < |reasons| && reasons[i] == f;
      assert ids[i] in ids;
    }
    if x :| x in results && x.decision == EntailmentReview && f == CaseUncertain(x.claimId) {
      assert x.claimId in ids;
      var i :| 0 <= i < |ids| && ids[i] == x.claimId;
      assert reasons[i] == f;
    }
  }

  // ------------------------------------------------------ the projection findings

  // What must be wrong for each binding finding.
  predicate BindingWrong(h: Host, d: Addresses, a: Answer, s: CaseSet, e: EntailmentResult, p: Projection, f: BindingFinding) {
    match f
    case IdentityInvalid => p.ref != d.projectionRef(p.body) || exists x :: x in p.body.propositions && x.propositionId != d.propositionId(x.body)
    case OtherAnswer => p.body.answer != h.answerRef(a) || s.body.answer != h.answerRef(a) || p.body.caseSet != s.ref
    case NotTheEntailment => e.decision != EntailmentPassed || e.caseSet != s.ref || e.receipt != Some(p.body.entailmentReceipt)
  }

  lemma BindingsExactly(h: Host, d: Addresses, a: Answer, s: CaseSet, e: EntailmentResult, p: Projection, f: BindingFinding)
    ensures f in BindingFindings(h, d, a, s, e, p) <==> BindingWrong(h, d, a, s, e, p, f)
  {
    hide ValidAnswer, ValidProjection;
  }

  // The answer does not end with the spans, or a span does not repeat its part.
  predicate TextWrong(text: string, ps: seq<Proposition>, f: TextFinding) {
    match f
    case Incomplete => ps != [] && ps[|ps| - 1].body.end != |text|
    case NotExact(id) => exists x :: x in ps && x.propositionId == id && Misquotes(text, x.body)
  }

  predicate Misquotes(text: string, x: PropositionBody) {
    !(x.start <= x.end <= |text| && x.text == text[x.start..x.end])
  }

  lemma {:induction false} InexactExactly(text: string, ps: seq<Proposition>, f: TextFinding)
    requires forall x :: x in ps ==> ValidProposition(x.body)
    ensures f in InexactSpans(text, ps) <==> f.NotExact? && TextWrong(text, ps, f)
  {
    hide Slice, ValidProposition;
    if ps != [] {
      var front, last := ps[..|ps| - 1], ps[|ps| - 1];
      assert ps == front + [last];
      InexactExactly(text, front, f);
      SpanSpells(text, last.body);
      hide Misquotes;
      assert Misquotes(text, last.body) <==> Slice(text, last.body.start, last.body.end) != last.body.text by { SpanSpells(text, last.body); MisquotesIs(text, last.body); }
    }
  }

  lemma MisquotesIs(text: string, x: PropositionBody)
    ensures Misquotes(text, x) <==> !(x.start <= x.end <= |text| && x.text == text[x.start..x.end])
  {
  }

  lemma TextsExactly(a: Answer, p: Projection, f: TextFinding)
    ensures f in TextFindings(a, p) <==> TextWrong(a.shortAnswer, p.body.propositions, f)
  {
    var text, ps := a.shortAnswer, p.body.propositions;
    PropositionsValid(p);
    HasPropositions(p);
    hide ValidAnswer, ValidProjection, InexactSpans, Misquotes, ValidProposition;
    InexactExactly(text, ps, f);
  }

  // What must be wrong with a role receipt for each finding.
  ghost predicate RoleWrong(d: Addresses, p: Projection, r: RoleReceipt, policy: Policy, f: RoleFinding) {
    var judge, roles, ps := r.body.judge, r.body.judgments, p.body.propositions;
    match f
    case RoleReceiptMissing => false
    case RoleIdWrong => r.ref.id != d.roleReceiptRef(r.body).id
    case RoleHashWrong => r.ref.hash != d.roleReceiptRef(r.body).hash
    case OtherProjection => r.body.projection != p.ref
    case RepeatedRoles => RoleTwice(roles)
    case RolesNotClosed => RoleMissing(ps, roles) || RoleStray(ps, roles)
    case OtherJudgeKind => policy.kind.Some? && judge.kind != policy.kind.value
    case OtherProfileId => policy.profileId.Some? && judge.profileId != policy.profileId.value
    case OtherProfileHash => policy.profileHash.Some? && judge.profileHash != policy.profileHash.value
    case OtherPrompt => policy.promptHash.Some? && judge.promptHash != policy.promptHash.value
    case OtherRawResponse => policy.rawHash.Some? && judge.rawHash != policy.rawHash.value
  }

  ghost predicate RoleTwice(roles: seq<RoleJudgment>) {
    exists i, j :: 0 <= i < j < |roles| && roles[i].propositionId == roles[j].propositionId
  }

  predicate RoleMissing(ps: seq<Proposition>, roles: seq<RoleJudgment>) {
    exists x :: x in ps && forall j :: j in roles ==> j.propositionId != x.propositionId
  }

  predicate RoleStray(ps: seq<Proposition>, roles: seq<RoleJudgment>) {
    exists j :: j in roles && forall x :: x in ps ==> x.propositionId != j.propositionId
  }

  lemma MissingExactly(ps: seq<Proposition>, roles: seq<RoleJudgment>)
    ensures RoleMissing(ps, roles) <==> !(Elems(Map(PropositionKey, ps)) <= Elems(Map(RoleKey, roles)))
  {
    MapElems(RoleKey, roles);
    MapElems(PropositionKey, ps);
    hide Map, Elems;
    if x :| x in ps && forall j :: j in roles ==> j.propositionId != x.propositionId {
      assert PropositionKey(x) in Elems(Map(PropositionKey, ps)) && PropositionKey(x) !in Elems(Map(RoleKey, roles));
    }
    if id :| id in Elems(Map(PropositionKey, ps)) && id !in Elems(Map(RoleKey, roles)) {
      var x :| x in ps && PropositionKey(x) == id;
      forall j | j in roles ensures j.propositionId != x.propositionId { assert RoleKey(j) in Elems(Map(RoleKey, roles)); }
    }
  }

  lemma StrayExactly(ps: seq<Proposition>, roles: seq<RoleJudgment>)
    ensures RoleStray(ps, roles) <==> !(Elems(Map(RoleKey, roles)) <= Elems(Map(PropositionKey, ps)))
  {
    MapElems(RoleKey, roles);
    MapElems(PropositionKey, ps);
    hide Map, Elems;
    if j :| j in roles && forall x :: x in ps ==> x.propositionId != j.propositionId {
      assert RoleKey(j) in Elems(Map(RoleKey, roles)) && RoleKey(j) !in Elems(Map(PropositionKey, ps));
    }
    if id :| id in Elems(Map(RoleKey, roles)) && id !in Elems(Map(PropositionKey, ps)) {
      var j :| j in roles && RoleKey(j) == id;
      forall x | x in ps ensures x.propositionId != j.propositionId { assert PropositionKey(x) in Elems(Map(PropositionKey, ps)); }
    }
  }

  lemma RoleFindingsExactly(d: Addresses, p: Projection, r: RoleReceipt, policy: Policy, f: RoleFinding)
    ensures f in RoleFindings(d, p, Some(r), policy) <==> RoleWrong(d, p, r, policy, f)
  {
    var ps, roles := p.body.propositions, r.body.judgments;
    RoleFindingsAre(d, p, r, policy, f);
    MissingExactly(ps, roles);
    StrayExactly(ps, roles);
    RolesDistinct(roles);
    hide RoleFindings, Distinct, Elems, Map, RoleTwice, RoleMissing, RoleStray, Needed;
  }

  lemma RoleFindingsAre(d: Addresses, p: Projection, r: RoleReceipt, policy: Policy, f: RoleFinding)
    ensures
      var judged := Map(RoleKey, r.body.judgments);
      f in RoleFindings(d, p, Some(r), policy) <==>
      match f
      case RoleReceiptMissing => false
      case RoleIdWrong => r.ref.id != d.roleReceiptRef(r.body).id
      case RoleHashWrong => r.ref.hash != d.roleReceiptRef(r.body).hash
      case OtherProjection => r.body.projection != p.ref
      case RepeatedRoles => !Distinct(judged)
      case RolesNotClosed => Elems(judged) != Elems(Map(PropositionKey, p.body.propositions))
      case OtherJudgeKind => !Pinned(policy.kind, r.body.judge.kind)
      case OtherProfileId => !Pinned(policy.profileId, r.body.judge.profileId)
      case OtherProfileHash => !Pinned(policy.profileHash, r.body.judge.profileHash)
      case OtherPrompt => !Pinned(policy.promptHash, r.body.judge.promptHash)
      case OtherRawResponse => !Pinned(policy.rawHash, r.body.judge.rawHash)
  {
    hide ValidProjection, Distinct, Elems, Map, Needed, Pinned;
    forall holds: bool, g: RoleFinding ensures f in Needed(holds, g) <==> !holds && f == g { NeededIn(holds, g, f); }
  }

  lemma NeededIn<T>(holds: bool, g: T, f: T)
    ensures f in Needed(holds, g) <==> !holds && f == g
  {
  }

  lemma RolesDistinct(roles: seq<RoleJudgment>)
    ensures Distinct(Map(RoleKey, roles)) <==> !RoleTwice(roles)
  {
    DistinctIndices(Map(RoleKey, roles));
    hide Distinct;
    if i, j :| 0 <= i < j < |roles| && roles[i].propositionId == roles[j].propositionId {
      assert Map(RoleKey, roles)[i] == Map(RoleKey, roles)[j];
    }
  }

  // ------------------------------------------------------------ the span findings

  // What must be wrong with a premise for each finding.
  ghost predicate PremiseWrong(kind: PropositionKind, a: Answer, outcomes: seq<CaseResult>, id: Id, f: RouteFinding) {
    match f
    case ClaimAbsent(i) => i == id && forall claim :: claim in a.claims ==> claim.claimId != id
    case NoSemanticResult(i) =>
      i == id && (exists claim :: claim in a.claims && claim.claimId == id) && forall x :: x in outcomes ==> x.claimId != id
    case NotClosed(i) => i == id && exists claim, x :: Premise(a, outcomes, id, claim, x) && x.decision != EntailmentPassed
    case NotSupported(i) => i == id && exists claim, x :: Premise(a, outcomes, id, claim, x) && Unsustained(x)
    case NotFactual(i) => i == id && kind == Fact && exists claim, x :: Premise(a, outcomes, id, claim, x) && Inferred(claim, x)
    case NoDirectSupport(i) => i == id && kind == Fact && exists claim, x :: Premise(a, outcomes, id, claim, x) && Indirect(x)
    case _ => false
  }

  // What must be wrong with a role judgment for each finding.
  predicate VerdictWrong(kind: PropositionKind, verdict: PropositionVerdict, f: RouteFinding) {
    (f == RoleUncertain && verdict == Uncertain) || (f == Overclaims && verdict == Unsupported) ||
    (f == RoleConflict && verdict != Uncertain && verdict != Unsupported && !Confirms(kind, verdict))
  }

  // What must be wrong with a span for each finding, given its role's verdict.
  ghost predicate SpanWrong(a: Answer, outcomes: seq<CaseResult>, p: PropositionBody, verdict: PropositionVerdict, f: RouteFinding) {
    VerdictWrong(p.kind, verdict, f) || exists id :: id in p.claimIds && PremiseWrong(p.kind, a, outcomes, id, f)
  }

  predicate Unsustained(x: CaseResult) {
    x.decision == EntailmentPassed && x.verdict != Some(DirectlySupported) && x.verdict != Some(SupportedInference)
  }

  predicate Inferred(claim: Claim, x: CaseResult) {
    x.decision == EntailmentPassed && claim.state == InferenceClaim
  }

  predicate Indirect(x: CaseResult) {
    x.decision == EntailmentPassed && x.verdict != Some(DirectlySupported)
  }

  // The claim of a premise and the result that counts for it.
  ghost predicate Premise(a: Answer, outcomes: seq<CaseResult>, id: Id, claim: Claim, x: CaseResult) {
    claim in a.claims && claim.claimId == id && ResultFor(outcomes, id, x)
  }

  predicate AsksReview(f: RouteFinding) {
    f.NoSemanticResult? || f.NotClosed? || f.RoleUncertain?
  }

  lemma PremiseLookup(a: Answer, outcomes: seq<CaseResult>, id: Id, claim: Claim, x: CaseResult)
    ensures Premise(a, outcomes, id, claim, x) <==> FindBy(ClaimKey, a.claims, id) == Some(claim) && OutcomeFor(outcomes, id) == Some(x)
  {
    assert UniqueBy(a.claims, ClaimKey);
    ResultForExactly(outcomes, id, x);
    hide ValidAnswer, UniqueBy, ResultFor, OutcomeFor;
    if claim in a.claims && claim.claimId == id { FindByKey(ClaimKey, a.claims, claim); }
  }

  lemma PremiseFindingIs(kind: PropositionKind, a: Answer, outcomes: seq<CaseResult>, id: Id, f: RouteFinding)
    ensures
      var g := PremiseFindings(kind, a, outcomes, id);
      (f in g.violations <==> !AsksReview(f) && PremiseWrong(kind, a, outcomes, id, f)) &&
      (f in g.review <==> AsksReview(f) && PremiseWrong(kind, a, outcomes, id, f))
  {
    match FindBy(ClaimKey, a.claims, id) {
      case None => AbsentPremiseIs(kind, a, outcomes, id, f);
      case Some(claim) =>
        match OutcomeFor(outcomes, id) {
          case None => UnjudgedPremiseIs(kind, a, outcomes, claim, f);
          case Some(x) => JudgedPremiseIs(kind, a, outcomes, claim, x, f);
        }
    }
  }

  lemma AbsentPremiseIs(kind: PropositionKind, a: Answer, outcomes: seq<CaseResult>, id: Id, f: RouteFinding)
    requires FindBy(ClaimKey, a.claims, id) == None
    ensures PremiseFindings(kind, a, outcomes, id) == Findings([ClaimAbsent(id)], [])
    ensures PremiseWrong(kind, a, outcomes, id, f) <==> f == ClaimAbsent(id)
  {
    forall claim, x ensures !Premise(a, outcomes, id, claim, x) { PremiseLookup(a, outcomes, id, claim, x); }
    hide ValidAnswer, Premise, OutcomeFor;
  }

  lemma UnjudgedPremiseIs(kind: PropositionKind, a: Answer, outcomes: seq<CaseResult>, claim: Claim, f: RouteFinding)
    requires FindBy(ClaimKey, a.claims, claim.claimId) == Some(claim) && OutcomeFor(outcomes, claim.claimId) == None
    ensures PremiseFindings(kind, a, outcomes, claim.claimId) == Findings([], [NoSemanticResult(claim.claimId)])
    ensures PremiseWrong(kind, a, outcomes, claim.claimId, f) <==> f == NoSemanticResult(claim.claimId)
  {
    forall c, x ensures !Premise(a, outcomes, claim.claimId, c, x) { PremiseLookup(a, outcomes, claim.claimId, c, x); }
    hide ValidAnswer, Premise, OutcomeFor;
  }

  lemma JudgedPremiseIs(kind: PropositionKind, a: Answer, outcomes: seq<CaseResult>, claim: Claim, x: CaseResult, f: RouteFinding)
    requires FindBy(ClaimKey, a.claims, claim.claimId) == Some(claim) && OutcomeFor(outcomes, claim.claimId) == Some(x)
    ensures
      var g := PremiseFindings(kind, a, outcomes, claim.claimId);
      (f in g.violations <==> !AsksReview(f) && PremiseWrong(kind, a, outcomes, claim.claimId, f)) &&
      (f in g.review <==> AsksReview(f) && PremiseWrong(kind, a, outcomes, claim.claimId, f))
  {
    var id := claim.claimId;
    JudgedFindingsAre(kind, a, outcomes, claim, x, f);
    forall c, y ensures Premise(a, outcomes, id, c, y) <==> c == claim && y == x { PremiseLookup(a, outcomes, id, c, y); }
    assert claim in a.claims && x in outcomes && x.claimId == id;
    hide ValidAnswer, Premise, FindBy, OutcomeFor, PremiseFindings, Unsustained, Inferred, Indirect;
    assert Premise(a, outcomes, id, claim, x);
  }

  lemma JudgedFindingsAre(kind: PropositionKind, a: Answer, outcomes: seq<CaseResult>, claim: Claim, x: CaseResult, f: RouteFinding)
    requires FindBy(ClaimKey, a.claims, claim.claimId) == Some(claim) && OutcomeFor(outcomes, claim.claimId) == Some(x)
    ensures
      var id := claim.claimId;
      var g := PremiseFindings(kind, a, outcomes, id);
      (f in g.violations <==>
        (f == NotSupported(id) && Unsustained(x)) || (f == NotFactual(id) && kind == Fact && Inferred(claim, x)) ||
        (f == NoDirectSupport(id) && kind == Fact && Indirect(x))) &&
      (f in g.review <==> f == NotClosed(id) && x.decision != EntailmentPassed)
  {
    hide ValidAnswer, FindBy, OutcomeFor;
  }

  lemma {:induction false} PremisesFindingsAre(kind: PropositionKind, a: Answer, outcomes: seq<CaseResult>, ids: seq<Id>, f: RouteFinding)
    ensures
      var g := PremisesFindings(kind, a, outcomes, ids);
      var wrong := exists id :: id in ids && PremiseWrong(kind, a, outcomes, id, f);
      (f in g.violations <==> !AsksReview(f) && wrong) && (f in g.review <==> AsksReview(f) && wrong)
  {
    hide ValidAnswer, PremiseFindings, PremiseWrong, AsksReview;
    if ids != [] {
      var front, last := ids[..|ids| - 1], ids[|ids| - 1];
      PremisesFindingsAre(kind, a, outcomes, front, f);
      PremiseFindingIs(kind, a, outcomes, last, f);
      assert ids == front + [last];
    }
  }

  lemma VerdictFindingsAre(kind: PropositionKind, verdict: PropositionVerdict, f: RouteFinding)
    ensures
      var g := VerdictFindings(kind, verdict);
      (f in g.violations <==> !AsksReview(f) && VerdictWrong(kind, verdict, f)) &&
      (f in g.review <==> AsksReview(f) && VerdictWrong(kind, verdict, f))
  {
    ConfirmsExactly(kind, verdict);
  }

  lemma SpanFindingsAre(a: Answer, e: EntailmentResult, roles: seq<RoleJudgment>, p: Proposition, f: RouteFinding)
    requires ValidProposition(p.body)
    ensures
      var g := FindingsFor(a, e, roles, p);
      var wrong := SpanWrong(a, e.cases, p.body, VerdictOf(roles, p.propositionId), f);
      (f in g.violations <==> !AsksReview(f) && wrong) && (f in g.review <==> AsksReview(f) && wrong)
  {
    PremisesFindingsAre(p.body.kind, a, e.cases, p.body.claimIds, f);
    VerdictFindingsAre(p.body.kind, VerdictOf(roles, p.propositionId), f);
    hide ValidAnswer, PremisesFindings, VerdictFindings, VerdictWrong, PremiseWrong, AsksReview, VerdictOf;
  }

  // All findings of the spans, each under its proposition.
  lemma {:induction false} AllFindingsAre(
    a: Answer, e: EntailmentResult, roles: seq<RoleJudgment>, ps: seq<Proposition>, id: Id, f: RouteFinding)
    requires forall x :: x in ps ==> ValidProposition(x.body)
    ensures
      var wrong := exists x :: x in ps && x.propositionId == id && SpanWrong(a, e.cases, x.body, VerdictOf(roles, id), f);
      (RouteViolation(id, f) in AllViolations(a, e, roles, ps) <==> !AsksReview(f) && wrong) &&
      (RouteReason(id, f) in AllReasons(a, e, roles, ps) <==> AsksReview(f) && wrong)
  {
    hide ValidAnswer, FindingsFor, SpanWrong, AsksReview, VerdictOf, ValidProposition, RouteViolations, RouteReasons;
    if ps != [] {
      var front, last := ps[..|ps| - 1], ps[|ps| - 1];
      assert ps == front + [last];
      AllFindingsAre(a, e, roles, front, id, f);
      SpanFindingsAre(a, e, roles, last, f);
      TaggedFindings(last.propositionId, FindingsFor(a, e, roles, last), id, f);
    }
  }

  lemma TaggedFindings(own: Id, g: Findings, id: Id, f: RouteFinding)
    ensures RouteViolation(id, f) in RouteViolations(own, g.violations) <==> id == own && f in g.violations
    ensures RouteReason(id, f) in RouteReasons(own, g.review) <==> id == own && f in g.review
  {
    MapMembersOf((x: RouteFinding) => RouteViolation(own, x), g.violations);
    MapMembersOf((x: RouteFinding) => RouteReason(own, x), g.review);
    hide Map;
  }

  lemma MapMembersOf<A, B>(f: A -> B, xs: seq<A>)
    ensures forall y :: y in Map(f, xs) <==> exists x :: x in xs && f(x) == y
  {
    MapElems(f, xs);
    forall y ensures y in Map(f, xs) <==> y in Elems(Map(f, xs)) {}
  }

  // ------------------------------------------------------------- the whole report

  // A span of this proposition has the finding, by its one role judgment.
  ghost predicate HasFinding(a: Answer, e: EntailmentResult, ps: seq<Proposition>, roles: seq<RoleJudgment>, id: Id, f: RouteFinding) {
    exists x, j :: x in ps && j in roles && x.propositionId == j.propositionId == id && SpanWrong(a, e.cases, x.body, j.verdict, f)
  }

  lemma HasFindingExactly(a: Answer, e: EntailmentResult, ps: seq<Proposition>, roles: seq<RoleJudgment>, id: Id, f: RouteFinding)
    requires RolesMatch(ps, roles)
    ensures HasFinding(a, e, ps, roles, id, f) <==>
            exists x :: x in ps && x.propositionId == id && SpanWrong(a, e.cases, x.body, VerdictOf(roles, id), f)
  {
    hide ValidAnswer, SpanWrong, VerdictOf, RolesMatch;
    if x, j :| x in ps && j in roles && x.propositionId == j.propositionId == id && SpanWrong(a, e.cases, x.body, j.verdict, f) {
      var k := RoleFor(roles, ps, x);
    }
    if x :| x in ps && x.propositionId == id && SpanWrong(a, e.cases, x.body, VerdictOf(roles, id), f) {
      var k := RoleFor(roles, ps, x);
    }
  }

  // What stands in the way of judging the spans.
  ghost predicate Judgeable(
    h: Host, d: Addresses, a: Answer, s: CaseSet, e: EntailmentResult, p: Projection, receipt: Option<RoleReceipt>, policy: Policy)
  {
    BoundTo(h, d, a, s, e, p) && Spells(a.shortAnswer, p.body.propositions) && receipt.Some? && RolesIntact(d, p, receipt.value, policy)
  }

  // The gate's violations, each exactly when it applies.
  ghost predicate ViolationHolds(
    h: Host, d: Addresses, a: Answer, s: CaseSet, e: EntailmentResult, p: Projection, receipt: Option<RoleReceipt>, policy: Policy, v: Violation)
  {
    match v
    case TextViolation(f) => BoundTo(h, d, a, s, e, p) && TextWrong(a.shortAnswer, p.body.propositions, f)
    case RouteViolation(id, f) =>
      Judgeable(h, d, a, s, e, p, receipt, policy) && !AsksReview(f) &&
      HasFinding(a, e, p.body.propositions, receipt.value.body.judgments, id, f)
  }

  // And its reasons for a review.
  ghost predicate ReasonHolds(
    h: Host, d: Addresses, a: Answer, s: CaseSet, e: EntailmentResult, p: Projection, receipt: Option<RoleReceipt>, policy: Policy, q: ReviewReason)
  {
    match q
    case BindingReason(f) => BindingWrong(h, d, a, s, e, p, f)
    case RoleReason(f) =>
      BoundTo(h, d, a, s, e, p) && Spells(a.shortAnswer, p.body.propositions) &&
      if receipt.None? then f == RoleReceiptMissing else RoleWrong(d, p, receipt.value, policy, f)
    case RouteReason(id, f) =>
      Judgeable(h, d, a, s, e, p, receipt, policy) && AsksReview(f) &&
      HasFinding(a, e, p.body.propositions, receipt.value.body.judgments, id, f)
  }

  lemma ReportCases(
    h: Host, d: Addresses, a: Answer, s: CaseSet, e: EntailmentResult, p: Projection, receipt: Option<RoleReceipt>, policy: Policy)
    ensures
      var r := ProjectionOutcome(h, d, a, s, e, p, receipt, policy);
      var bindings, texts, roles := BindingFindings(h, d, a, s, e, p), TextFindings(a, p), RoleFindings(d, p, receipt, policy);
      if bindings != [] then r.violations == [] && r.reviewReasons == Map(f => BindingReason(f), bindings)
      else if texts != [] then r.violations == Map(f => TextViolation(f), texts) && r.reviewReasons == []
      else if roles != [] then r.violations == [] && r.reviewReasons == Map(f => RoleReason(f), roles)
      else
        receipt.Some? && r.violations == AllViolations(a, e, receipt.value.body.judgments, p.body.propositions) &&
        r.reviewReasons == AllReasons(a, e, receipt.value.body.judgments, p.body.propositions)
  {
    RolesNeedReceipt(d, p, receipt, policy);
    hide BindingFindings, TextFindings, RoleFindings, AllViolations, AllReasons, Coverages, Unclosed, ValidAnswer, ValidProjection;
  }

  lemma NoBindings(h: Host, d: Addresses, a: Answer, s: CaseSet, e: EntailmentResult, p: Projection)
    ensures BoundTo(h, d, a, s, e, p) <==> forall f :: !BindingWrong(h, d, a, s, e, p, f)
  {
    BoundExactly(h, d, a, s, e, p);
    var bindings := BindingFindings(h, d, a, s, e, p);
    forall f ensures f in bindings <==> BindingWrong(h, d, a, s, e, p, f) { BindingsExactly(h, d, a, s, e, p, f); }
    hide BindingFindings, BindingWrong, BoundTo;
    if bindings != [] { assert bindings[0] in bindings; }
  }

  lemma NoTexts(a: Answer, p: Projection)
    ensures Spells(a.shortAnswer, p.body.propositions) <==> forall f :: !TextWrong(a.shortAnswer, p.body.propositions, f)
  {
    SpellsExactly(a, p);
    var texts := TextFindings(a, p);
    forall f ensures f in texts <==> TextWrong(a.shortAnswer, p.body.propositions, f) { TextsExactly(a, p, f); }
    hide TextFindings, TextWrong, Spells;
    if texts != [] { assert texts[0] in texts; }
  }

  lemma NoRoles(d: Addresses, p: Projection, r: RoleReceipt, policy: Policy)
    ensures RolesIntact(d, p, r, policy) <==> forall f :: !RoleWrong(d, p, r, policy, f)
  {
    RolesPassExactly(d, p, Some(r), policy);
    RolesExactly(d, p, r, policy);
    var roles := RoleFindings(d, p, Some(r), policy);
    forall f ensures f in roles <==> RoleWrong(d, p, r, policy, f) { RoleFindingsExactly(d, p, r, policy, f); }
    hide RoleFindings, RoleWrong, RolesIntact, RolesTrusted;
    if roles != [] { assert roles[0] in roles; }
  }

  // The collected findings of the spans hold tagged findings alone.
  lemma {:induction false} AllAreTagged(a: Answer, e: EntailmentResult, roles: seq<RoleJudgment>, ps: seq<Proposition>)
    ensures forall v :: v in AllViolations(a, e, roles, ps) ==> v.RouteViolation?
    ensures forall q :: q in AllReasons(a, e, roles, ps) ==> q.RouteReason?
  {
    hide ValidAnswer, FindingsFor;
    if ps != [] { AllAreTagged(a, e, roles, ps[..|ps| - 1]); }
  }

  lemma UnboundReport(
    h: Host, d: Addresses, a: Answer, s: CaseSet, e: EntailmentResult, p: Projection, receipt: Option<RoleReceipt>, policy: Policy,
    v: Violation, q: ReviewReason)
    requires !BoundTo(h, d, a, s, e, p)
    ensures
      var bindings := BindingFindings(h, d, a, s, e, p);
      !ViolationHolds(h, d, a, s, e, p, receipt, policy, v) &&
      (ReasonHolds(h, d, a, s, e, p, receipt, policy, q) <==> q in Map(f => BindingReason(f), bindings))
  {
    var bindings := BindingFindings(h, d, a, s, e, p);
    MapMembersOf(f => BindingReason(f), bindings);
    forall f ensures f in bindings <==> BindingWrong(h, d, a, s, e, p, f) { BindingsExactly(h, d, a, s, e, p, f); }
    hide Map, BoundTo, Spells, BindingFindings, BindingWrong, TextWrong, RoleWrong, HasFinding, RolesIntact, AsksReview;
  }

  lemma MisspeltReport(
    h: Host, d: Addresses, a: Answer, s: CaseSet, e: EntailmentResult, p: Projection, receipt: Option<RoleReceipt>, policy: Policy,
    v: Violation, q: ReviewReason)
    requires BoundTo(h, d, a, s, e, p) && !Spells(a.shortAnswer, p.body.propositions)
    ensures
      (ViolationHolds(h, d, a, s, e, p, receipt, policy, v) <==> v in Map(f => TextViolation(f), TextFindings(a, p))) &&
      !ReasonHolds(h, d, a, s, e, p, receipt, policy, q)
  {
    var texts := TextFindings(a, p);
    MapMembersOf(f => TextViolation(f), texts);
    forall f ensures f in texts <==> TextWrong(a.shortAnswer, p.body.propositions, f) { TextsExactly(a, p, f); }
    NoBindings(h, d, a, s, e, p);
    hide Map, BoundTo, Spells, TextFindings, BindingWrong, TextWrong, RoleWrong, HasFinding, RolesIntact, AsksReview;
  }

  lemma UntrustedReport(
    h: Host, d: Addresses, a: Answer, s: CaseSet, e: EntailmentResult, p: Projection, receipt: Option<RoleReceipt>, policy: Policy,
    v: Violation, q: ReviewReason)
    requires BoundTo(h, d, a, s, e, p) && Spells(a.shortAnswer, p.body.propositions)
    requires receipt.None? || !RolesIntact(d, p, receipt.value, policy)
    ensures
      !ViolationHolds(h, d, a, s, e, p, receipt, policy, v) &&
      (ReasonHolds(h, d, a, s, e, p, receipt, policy, q) <==> q in Map(f => RoleReason(f), RoleFindings(d, p, receipt, policy)))
  {
    var roles := RoleFindings(d, p, receipt, policy);
    MapMembersOf(f => RoleReason(f), roles);
    forall f ensures f in roles <==> if receipt.None? then f == RoleReceiptMissing else RoleWrong(d, p, receipt.value, policy, f) {
      if receipt.Some? { RoleFindingsExactly(d, p, receipt.value, policy, f); } else { MissingReceipt(d, p, policy); }
    }
    NoBindings(h, d, a, s, e, p);
    NoTexts(a, p);
    hide Map, BoundTo, Spells, RoleFindings, BindingWrong, TextWrong, RoleWrong, HasFinding, RolesIntact, AsksReview;
  }

  lemma MissingReceipt(d: Addresses, p: Projection, policy: Policy)
    ensures RoleFindings(d, p, None, policy) == [RoleReceiptMissing]
  {
  }

  lemma JudgedReport(
    h: Host, d: Addresses, a: Answer, s: CaseSet, e: EntailmentResult, p: Projection, r: RoleReceipt, policy: Policy,
    v: Violation, q: ReviewReason)
    requires Judgeable(h, d, a, s, e, p, Some(r), policy)
    ensures
      var ps, roles := p.body.propositions, r.body.judgments;
      (ViolationHolds(h, d, a, s, e, p, Some(r), policy, v) <==> v in AllViolations(a, e, roles, ps)) &&
      (ReasonHolds(h, d, a, s, e, p, Some(r), policy, q) <==> q in AllReasons(a, e, roles, ps))
  {
    var ps, roles := p.body.propositions, r.body.judgments;
    OnlySpanFindings(h, d, a, s, e, p, r, policy, v, q);
    PropositionsValid(p);
    AllAreTagged(a, e, roles, ps);
    assert RolesMatch(ps, roles) by { hide RolesMatch; }
    hide *;
    if v.RouteViolation? {
      AllFindingsAre(a, e, roles, ps, v.propositionId, v.route);
      HasFindingExactly(a, e, ps, roles, v.propositionId, v.route);
    }
    if q.RouteReason? {
      AllFindingsAre(a, e, roles, ps, q.propositionId, q.route);
      HasFindingExactly(a, e, ps, roles, q.propositionId, q.route);
    }
  }

  lemma OnlySpanFindings(
    h: Host, d: Addresses, a: Answer, s: CaseSet, e: EntailmentResult, p: Projection, r: RoleReceipt, policy: Policy,
    v: Violation, q: ReviewReason)
    requires Judgeable(h, d, a, s, e, p, Some(r), policy)
    ensures
      var ps, roles := p.body.propositions, r.body.judgments;
      (ViolationHolds(h, d, a, s, e, p, Some(r), policy, v) <==>
        v.RouteViolation? && !AsksReview(v.route) && HasFinding(a, e, ps, roles, v.propositionId, v.route)) &&
      (ReasonHolds(h, d, a, s, e, p, Some(r), policy, q) <==>
        q.RouteReason? && AsksReview(q.route) && HasFinding(a, e, ps, roles, q.propositionId, q.route))
  {
    NoBindings(h, d, a, s, e, p);
    NoTexts(a, p);
    NoRoles(d, p, r, policy);
    hide BoundTo, Spells, BindingWrong, TextWrong, RoleWrong, HasFinding, RolesIntact, AsksReview;
  }

  // Every violation and every reason for a review is reported exactly when it holds.
  lemma ReportExactly(
    h: Host, d: Addresses, a: Answer, s: CaseSet, e: EntailmentResult, p: Projection, receipt: Option<RoleReceipt>, policy: Policy,
    v: Violation, q: ReviewReason)
    ensures
      var r := ProjectionOutcome(h, d, a, s, e, p, receipt, policy);
      (v in r.violations <==> ViolationHolds(h, d, a, s, e, p, receipt, policy, v)) &&
      (q in r.reviewReasons <==> ReasonHolds(h, d, a, s, e, p, receipt, policy, q))
  {
    ReportCases(h, d, a, s, e, p, receipt, policy);
    BoundExactly(h, d, a, s, e, p);
    SpellsExactly(a, p);
    RolesPassExactly(d, p, receipt, policy);
    if receipt.Some? { RolesExactly(d, p, receipt.value, policy); }
    hide ProjectionOutcome, BindingFindings, TextFindings, RoleFindings, ViolationHolds, ReasonHolds, Map, BoundTo, Spells, RolesIntact, RolesTrusted, AllViolations, AllReasons;
    if !BoundTo(h, d, a, s, e, p) {
      UnboundReport(h, d, a, s, e, p, receipt, policy, v, q);
    } else if !Spells(a.shortAnswer, p.body.propositions) {
      MisspeltReport(h, d, a, s, e, p, receipt, policy, v, q);
    } else if receipt.None? || !RolesIntact(d, p, receipt.value, policy) {
      UntrustedReport(h, d, a, s, e, p, receipt, policy, v, q);
    } else {
      JudgedReport(h, d, a, s, e, p, receipt.value, policy, v, q);
    }
  }

  // What the report says of one span: judged, its role's verdict and whether nothing
  // is wrong with it; unjudged, neither.
  ghost predicate CoverageSays(
    a: Answer, e: EntailmentResult, x: Proposition, roles: Option<seq<RoleJudgment>>, c: PropositionCoverage)
  {
    c.propositionId == x.propositionId && c.kind == x.body.kind && c.claimIds == x.body.claimIds &&
    match roles
    case None => c.verdict == None && !c.closed
    case Some(judgments) =>
      exists j :: j in judgments && j.propositionId == x.propositionId && c.verdict == Some(j.verdict) &&
        (c.closed <==> forall f :: !SpanWrong(a, e.cases, x.body, j.verdict, f))
  }

  lemma CoverageExactly(a: Answer, e: EntailmentResult, ps: seq<Proposition>, roles: seq<RoleJudgment>, x: Proposition)
    requires RolesMatch(ps, roles) && x in ps && ValidProposition(x.body)
    ensures CoverageSays(a, e, x, Some(roles), CoverageFor(a, e, roles, x))
  {
    var j := RoleFor(roles, ps, x);
    var g := FindingsFor(a, e, roles, x);
    forall f ensures
      (f in g.violations <==> !AsksReview(f) && SpanWrong(a, e.cases, x.body, j.verdict, f)) &&
      (f in g.review <==> AsksReview(f) && SpanWrong(a, e.cases, x.body, j.verdict, f))
    {
      SpanFindingsAre(a, e, roles, x, f);
    }
    hide ValidAnswer, RolesMatch, VerdictOf, FindingsFor, SpanWrong, AsksReview, ValidProposition;
    if g.violations != [] { assert g.violations[0] in g.violations; }
    if g.review != [] { assert g.review[0] in g.review; }
  }

  lemma CoveragesAre(
    h: Host, d: Addresses, a: Answer, s: CaseSet, e: EntailmentResult, p: Projection, receipt: Option<RoleReceipt>, policy: Policy)
    ensures
      var r, ps := ProjectionOutcome(h, d, a, s, e, p, receipt, policy), p.body.propositions;
      r.propositions ==
      if BindingFindings(h, d, a, s, e, p) != [] || TextFindings(a, p) != [] || RoleFindings(d, p, receipt, policy) != [] then Unclosed(ps)
      else if receipt.Some? then Coverages(a, e, receipt.value.body.judgments, ps) else []
    ensures var r := ProjectionOutcome(h, d, a, s, e, p, receipt, policy);
            r.projection == p.ref && r.receipt == (if receipt.Some? then Some(receipt.value.ref) else None) &&
            (r.displayEligible <==> r.decision == ProjectionPassed)
  {
    RolesNeedReceipt(d, p, receipt, policy);
    hide BindingFindings, TextFindings, RoleFindings, AllViolations, AllReasons, Coverages, Unclosed, ValidAnswer, ValidProjection;
  }

  // One record for every span, in order, and the artifacts the report is about.
  lemma CoveragesExactly(
    h: Host, d: Addresses, a: Answer, s: CaseSet, e: EntailmentResult, p: Projection, receipt: Option<RoleReceipt>, policy: Policy)
    ensures
      var r, ps := ProjectionOutcome(h, d, a, s, e, p, receipt, policy), p.body.propositions;
      var roles := if Judgeable(h, d, a, s, e, p, receipt, policy) then Some(receipt.value.body.judgments) else None;
      r.projection == p.ref && r.receipt == (if receipt.Some? then Some(receipt.value.ref) else None) &&
      (r.displayEligible <==> r.decision == ProjectionPassed) && |r.propositions| == |ps| &&
      forall i :: 0 <= i < |ps| ==> CoverageSays(a, e, ps[i], roles, r.propositions[i])
  {
    var ps := p.body.propositions;
    CoveragesAre(h, d, a, s, e, p, receipt, policy);
    BoundExactly(h, d, a, s, e, p);
    SpellsExactly(a, p);
    RolesPassExactly(d, p, receipt, policy);
    if receipt.Some? { RolesExactly(d, p, receipt.value, policy); }
    PropositionsValid(p);
    UnclosedSay(a, e, ps);
    hide ProjectionOutcome, BindingFindings, TextFindings, RoleFindings, BoundTo, Spells, RolesTrusted, CoverageSays, ValidProposition, ValidAnswer, Unclosed, CoverageFor;
    if Judgeable(h, d, a, s, e, p, receipt, policy) {
      var roles := receipt.value.body.judgments;
      assert RolesMatch(ps, roles) by { hide RolesMatch; }
      hide RolesMatch, RolesIntact;
      forall i | 0 <= i < |ps| ensures CoverageSays(a, e, ps[i], Some(roles), Coverages(a, e, roles, ps)[i]) {
        CoverageExactly(a, e, ps, roles, ps[i]);
      }
    }
  }

  lemma UnclosedSay(a: Answer, e: EntailmentResult, ps: seq<Proposition>)
    ensures |Unclosed(ps)| == |ps| && forall i :: 0 <= i < |ps| ==> CoverageSays(a, e, ps[i], None, Unclosed(ps)[i])
  {
  }
}
