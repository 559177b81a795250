// Semantic review of an answer's claims: the case set that exposes each claim
// with its exact quotations, and the gate over an external judgment receipt.

module ClaimEntailment {
  import opened Common
  import opened RouteGraph

  // A content address: identifier and digest of one payload.
  datatype Ref = Ref(id: string, hash: string)

  datatype ClaimState = SupportedClaim | QualifiedClaim | InferenceClaim

  datatype Claim = Claim(claimId: Id, text: string, state: ClaimState, evidenceIds: seq<Id>)

  datatype Citation = Citation(evidenceId: Id, sourceId: Id, exactQuote: string)

  datatype AnswerData = AnswerData(
    taskId: Id, packet: Ref, shortAnswer: string, claims: seq<Claim>, citations: seq<Citation>)

  function ClaimKey(c: Claim): Id { c.claimId }

  function CitationKey(c: Citation): Id { c.evidenceId }

  predicate ValidAnswer(a: AnswerData) {
    a.shortAnswer != "" && UniqueBy(a.claims, ClaimKey) && UniqueBy(a.citations, CitationKey) &&
    forall c :: c in a.claims ==>
      c.text != "" && c.evidenceIds != [] && Distinct(c.evidenceIds) && Elems(c.evidenceIds) <= Elems(Map(CitationKey, a.citations))
  }

  type Answer = a: AnswerData | ValidAnswer(a)
    witness AnswerData("task", Ref("", ""), "x", [], [])

  // Packet records, reduced to what a reviewer is shown of them.
  datatype ShownEvidence = ShownEvidence(evidenceId: Id, sourceId: Id, display: string)

  datatype ShownSource = ShownSource(sourceId: Id, display: string)

  datatype PacketData = PacketData(ref: Ref, evidence: seq<ShownEvidence>, sources: seq<ShownSource>)

  function ShownEvidenceKey(e: ShownEvidence): Id { e.evidenceId }

  function ShownSourceKey(s: ShownSource): Id { s.sourceId }

  datatype CoverageSpec = CoverageSpec(ref: Ref, taskId: Id, packet: Ref)

  datatype CaseCitation = CaseCitation(evidence: ShownEvidence, source: ShownSource, exactQuote: string)

  datatype CaseBody = CaseBody(
    claimId: Id, claimText: string, claimState: ClaimState, citations: seq<CaseCitation>, unquoted: seq<string>)

  datatype Case = Case(caseId: Id, body: CaseBody)

  datatype CaseSetBody = CaseSetBody(taskId: Id, answer: Ref, packet: Ref, coverageSpec: Ref, cases: seq<Case>)

  datatype CaseSet = CaseSet(ref: Ref, body: CaseSetBody)

  datatype JudgeKind = Human | Model

  datatype Verdict = DirectlySupported | SupportedInference | PartlySupported | UnsupportedVerdict | Contradicted | UncertainVerdict

  datatype Span = Span(start: nat, end: nat, text: string)

  datatype Judgment = Judgment(caseId: Id, claimId: Id, verdict: Verdict, spans: seq<Span>, reason: string)

  datatype Judge = Judge(kind: JudgeKind, profileId: Id, profileHash: string, promptHash: string, rawHash: string)

  datatype ReceiptBody = ReceiptBody(caseSet: Ref, judge: Judge, judgments: seq<Judgment>)

  datatype Receipt = Receipt(ref: Ref, body: ReceiptBody)

  // Content addressing and the numeric literals of a text come from outside.
  datatype Host = Host(
    answerRef: AnswerData -> Ref, caseId: CaseBody -> Id, caseSetRef: CaseSetBody -> Ref,
    receiptRef: ReceiptBody -> Ref, numerals: string -> seq<string>)

  function CaseKey(c: Case): Id { c.caseId }

  function CaseClaim(c: Case): Id { c.body.claimId }

  function JudgmentCase(j: Judgment): Id { j.caseId }

  function JudgmentClaim(j: Judgment): Id { j.claimId }

  // What the case set's own validator demands.
  predicate ValidCaseSet(h: Host, s: CaseSet) {
    UniqueBy(s.body.cases, CaseKey) && UniqueBy(s.body.cases, CaseClaim) && s.ref == h.caseSetRef(s.body)
  }

  // -------------------------------------------------------------- the builder

  datatype BuildError = TaskMismatch | PacketMismatch | NotJoined(claimId: Id) | WrongSource(evidenceId: Id) |
                        SourceMissing(evidenceId: Id) | CaseIdsRepeat

  function JoinCitation(a: Answer, p: PacketData, claimId: Id, evidenceId: Id): Result<CaseCitation, BuildError> {
    match (FindBy(CitationKey, a.citations, evidenceId), FindBy(ShownEvidenceKey, p.evidence, evidenceId))
    case (Some(citation), Some(evidence)) =>
      if citation.sourceId != evidence.sourceId then Err(WrongSource(evidenceId))
      else (match FindBy(ShownSourceKey, p.sources, citation.sourceId)
        case Some(source) => Ok(CaseCitation(evidence, source, citation.exactQuote))
        case None => Err(SourceMissing(evidenceId)))
    case (_, _) => Err(NotJoined(claimId))
  }

  // The claim's citations joined one by one; the first failure stops the join.
  function Joined(a: Answer, p: PacketData, claimId: Id, evidenceIds: seq<Id>): Result<seq<CaseCitation>, BuildError> {
    if evidenceIds == [] then Ok([])
    else
      match Joined(a, p, claimId, evidenceIds[..|evidenceIds| - 1])
      case Err(e) => Err(e)
      case Ok(front) =>
        match JoinCitation(a, p, claimId, evidenceIds[|evidenceIds| - 1])
        case Err(e) => Err(e)
        case Ok(last) => Ok(front + [last])
  }

  function Quotes(citations: seq<CaseCitation>): seq<string> {
    Map((c: CaseCitation) => c.exactQuote, citations)
  }

  predicate Quoted(h: Host, quotes: seq<string>, literal: string) {
    exists quote :: quote in quotes && literal in h.numerals(quote)
  }

  // Numeric literals of the claim that no quotation holds, each once.
  function Unquoted(h: Host, text: string, quotes: seq<string>): seq<string> {
    StableUnique(Filter((literal: string) => !Quoted(h, quotes, literal), h.numerals(text)))
  }

  lemma KeepOneMore(keep: string -> bool, front: seq<string>, x: string)
    ensures
      var kept := StableUnique(Filter(keep, front));
      var more := StableUnique(Filter(keep, front + [x]));
      more == (if keep(x) && x !in Elems(kept) then kept + [x] else kept) &&
      Elems(more) == (if keep(x) then Elems(kept) + {x} else Elems(kept))
  {
    var before := Filter(keep, front);
    FilterConcat(keep, front, [x]);
    assert Filter(keep, [x]) == if keep(x) then [x] else [];
    assert before + [] == before && (before + [x])[..|before|] == before;
    assert x in before <==> x in Elems(before);
    DistinctSnoc(StableUnique(before), x);
  }

  method UnquotedLiterals(h: Host, text: string, quotes: seq<string>) returns (result: seq<string>)
    ensures result == Unquoted(h, text, quotes)
  {
    hide StableUnique, Filter, Elems, Quoted;
    var all := h.numerals(text);
    var seen: set<string> := {};
    result := [];
    ghost var keep := (literal: string) => !Quoted(h, quotes, literal);
    NothingKept(keep);
    for i := 0 to |all|
      invariant result == StableUnique(Filter(keep, all[..i])) && seen == Elems(result)
    {
      assert all[..i + 1] == all[..i] + [all[i]];
      KeepOneMore(keep, all[..i], all[i]);
      if !Quoted(h, quotes, all[i]) && all[i] !in seen {
        seen, result := seen + {all[i]}, result + [all[i]];
      }
    }
    assert all[..|all|] == all;
  }

  lemma NothingKept(keep: string -> bool)
    ensures StableUnique(Filter(keep, [])) == [] && Elems<string>([]) == {}
  {
  }

  function CaseFor(h: Host, claim: Claim, citations: seq<CaseCitation>): Case {
    var body := CaseBody(claim.claimId, claim.text, claim.state, citations, Unquoted(h, claim.text, Quotes(citations)));
    Case(h.caseId(body), body)
  }

  function CasesFor(h: Host, a: Answer, p: PacketData, claims: seq<Claim>): Result<seq<Case>, BuildError> {
    if claims == [] then Ok([])
    else
      var last := claims[|claims| - 1];
      match CasesFor(h, a, p, claims[..|claims| - 1])
      case Err(e) => Err(e)
      case Ok(front) =>
        match Joined(a, p, last.claimId, last.evidenceIds)
        case Err(e) => Err(e)
        case Ok(citations) => Ok(front + [CaseFor(h, last, citations)])
  }

  function CaseSetFor(h: Host, a: Answer, p: PacketData, spec: CoverageSpec, taskId: Id): Result<CaseSet, BuildError> {
    if a.taskId != taskId || spec.taskId != taskId then Err(TaskMismatch)
    else if a.packet != p.ref || spec.packet != p.ref then Err(PacketMismatch)
    else
      match CasesFor(h, a, p, a.claims)
      case Err(e) => Err(e)
      case Ok(cases) =>
        var body := CaseSetBody(taskId, h.answerRef(a), p.ref, spec.ref, cases);
        if ValidCaseSet(h, CaseSet(h.caseSetRef(body), body)) then Ok(CaseSet(h.caseSetRef(body), body)) else Err(CaseIdsRepeat)
  }

  lemma {:induction false} JoinedPrefix(a: Answer, p: PacketData, claimId: Id, ids: seq<Id>, n: nat)
    requires n <= |ids| && Joined(a, p, claimId, ids[..n]).Err?
    ensures Joined(a, p, claimId, ids) == Joined(a, p, claimId, ids[..n])
    decreases |ids|
  {
    if n < |ids| {
      assert ids[..|ids| - 1][..n] == ids[..n];
      JoinedPrefix(a, p, claimId, ids[..|ids| - 1], n);
    } else {
      assert ids[..n] == ids;
    }
  }

  method JoinCitations(a: Answer, p: PacketData, claim: Claim) returns (r: Result<seq<CaseCitation>, BuildError>)
    ensures r == Joined(a, p, claim.claimId, claim.evidenceIds)
  {
    hide ValidAnswer, JoinCitation;
    var ids := claim.evidenceIds;
    var displays: seq<CaseCitation> := [];
    for i := 0 to |ids|
      invariant Joined(a, p, claim.claimId, ids[..i]) == Ok(displays)
    {
      assert ids[..i + 1][..i] == ids[..i];
      var joined := JoinCitation(a, p, claim.claimId, ids[i]);
      if joined.Err? {
        JoinedPrefix(a, p, claim.claimId, ids, i + 1);
        return Err(joined.error);
      }
      displays := displays + [joined.value];
    }
    assert ids[..|ids|] == ids;
    return Ok(displays);
  }

  lemma {:induction false} CasesPrefix(h: Host, a: Answer, p: PacketData, claims: seq<Claim>, n: nat)
    requires n <= |claims| && CasesFor(h, a, p, claims[..n]).Err?
    ensures CasesFor(h, a, p, claims) == CasesFor(h, a, p, claims[..n])
    decreases |claims|
  {
    if n < |claims| {
      assert claims[..|claims| - 1][..n] == claims[..n];
      CasesPrefix(h, a, p, claims[..|claims| - 1], n);
    } else {
      assert claims[..n] == claims;
    }
  }

  method BuildCaseSet(h: Host, a: Answer, p: PacketData, spec: CoverageSpec, taskId: Id) returns (r: Result<CaseSet, BuildError>)
    ensures r == CaseSetFor(h, a, p, spec, taskId)
  {
    hide Joined, CaseFor, ValidAnswer, ValidCaseSet;
    if a.taskId != taskId || spec.taskId != taskId { return Err(TaskMismatch); }
    if a.packet != p.ref || spec.packet != p.ref { return Err(PacketMismatch); }
    var cases: seq<Case> := [];
    for i := 0 to |a.claims|
      invariant CasesFor(h, a, p, a.claims[..i]) == Ok(cases)
    {
      assert a.claims[..i + 1][..i] == a.claims[..i];
      var joined := JoinCitations(a, p, a.claims[i]);
      if joined.Err? {
        CasesPrefix(h, a, p, a.claims, i + 1);
        return Err(joined.error);
      }
      var made := MakeCase(h, a.claims[i], joined.value);
      cases := cases + [made];
    }
    assert a.claims[..|a.claims|] == a.claims;
    var body := CaseSetBody(taskId, h.answerRef(a), p.ref, spec.ref, cases);
    var built := CaseSet(h.caseSetRef(body), body);
    if !ValidCaseSet(h, built) { return Err(CaseIdsRepeat); }
    return Ok(built);
  }

  method MakeCase(h: Host, claim: Claim, citations: seq<CaseCitation>) returns (made: Case)
    ensures made == CaseFor(h, claim, citations)
  {
    var unquoted := UnquotedLiterals(h, claim.text, Quotes(citations));
    var body := CaseBody(claim.claimId, claim.text, claim.state, citations, unquoted);
    made := Case(h.caseId(body), body);
  }

  // A built case set has one case per claim, in order, showing the claim's own
  // text and state and exactly the evidence the claim names, with the answer's quotes.
  lemma {:induction false} CasesMirrorClaims(h: Host, a: Answer, p: PacketData, claims: seq<Claim>)
    requires CasesFor(h, a, p, claims).Ok?
    ensures
      var cases := CasesFor(h, a, p, claims).value;
      |cases| == |claims| &&
      forall i :: 0 <= i < |claims| ==>
        CaseClaim(cases[i]) == claims[i].claimId && cases[i].body.claimText == claims[i].text &&
        cases[i].body.claimState == claims[i].state && Joined(a, p, claims[i].claimId, claims[i].evidenceIds) == Ok(cases[i].body.citations)
  {
    hide Joined, ValidAnswer;
    if claims != [] { CasesMirrorClaims(h, a, p, claims[..|claims| - 1]); }
  }

  lemma {:induction false} JoinedShowsCitations(a: Answer, p: PacketData, claimId: Id, ids: seq<Id>)
    requires Joined(a, p, claimId, ids).Ok?
    ensures
      var shown := Joined(a, p, claimId, ids).value;
      |shown| == |ids| &&
      forall i :: 0 <= i < |ids| ==>
        shown[i].evidence.evidenceId == ids[i] && shown[i].evidence in p.evidence && shown[i].source in p.sources &&
        shown[i].source.sourceId == shown[i].evidence.sourceId &&
        Citation(ids[i], shown[i].source.sourceId, shown[i].exactQuote) in a.citations
  {
    hide ValidAnswer;
    if ids != [] { JoinedShowsCitations(a, p, claimId, ids[..|ids| - 1]); }
  }

  // ----------------------------------------------------------------- the gate

  datatype EntailmentDecision = EntailmentPassed | EntailmentFailed | EntailmentReview | EntailmentUnchecked

  // The earlier gates' verdicts on the answer.
  datatype ContractResult = ContractResult(accepted: bool, answer: Option<Ref>)

  datatype CoverageResult = CoverageResult(complete: bool, answer: Ref, spec: Ref)

  // A policy may pin any part of the judge.
  datatype Policy = Policy(
    kind: Option<JudgeKind>, profileId: Option<Id>, profileHash: Option<string>, promptHash: Option<string>, rawHash: Option<string>)

  datatype SpanError = SupportWithSpans | SpanOutside | SpanNotExact

  datatype Finding =
    | ReceiptMissing | ReceiptIdWrong | ReceiptHashWrong | OtherCaseSet
    | WrongJudgeKind | WrongProfileId | WrongProfileHash | WrongPrompt | WrongRawResponse
    | DuplicateCases(ids: set<Id>) | DuplicateClaims(ids: set<Id>) | MissingCases(ids: set<Id>)
    | ExtraCases(ids: set<Id>) | ExtraClaims(ids: set<Id>)
    | NamesOtherClaim(caseId: Id, named: Id) | BadSpan(caseId: Id, error: SpanError)
    | CaseUncertain(claimId: Id)

  datatype Skipped = ContractNotAccepted | CoverageIncomplete | ContractUnbound | CoverageUnbound

  datatype CaseResult = CaseResult(
    caseId: Id, claimId: Id, claimState: ClaimState, verdict: Option<Verdict>, decision: EntailmentDecision,
    spans: seq<Span>, reason: string)

  datatype EntailmentResult = EntailmentResult(
    decision: EntailmentDecision, caseSet: Ref, receipt: Option<Ref>, cases: seq<CaseResult>,
    violations: seq<Id>, reviewReasons: seq<Finding>, skipped: Option<Skipped>)

  function PrerequisiteError(s: CaseSet, contract: ContractResult, coverage: CoverageResult): Option<Skipped> {
    if !contract.accepted then Some(ContractNotAccepted)
    else if !coverage.complete then Some(CoverageIncomplete)
    else if contract.answer != Some(s.body.answer) then Some(ContractUnbound)
    else if coverage.answer != s.body.answer || coverage.spec != s.body.coverageSpec then Some(CoverageUnbound)
    else None
  }

  predicate Pinned<T(==)>(expected: Option<T>, actual: T) {
    expected.None? || expected.value == actual
  }

  function Unless(holds: bool, finding: Finding): seq<Finding> {
    if holds then [] else [finding]
  }

  function IntegrityErrors(h: Host, s: CaseSet, r: Receipt, policy: Policy): seq<Finding> {
    Unless(r.ref.id == h.receiptRef(r.body).id, ReceiptIdWrong) +
    Unless(r.ref.hash == h.receiptRef(r.body).hash, ReceiptHashWrong) +
    Unless(r.body.caseSet == s.ref, OtherCaseSet) +
    Unless(Pinned(policy.kind, r.body.judge.kind), WrongJudgeKind) +
    Unless(Pinned(policy.profileId, r.body.judge.profileId), WrongProfileId) +
    Unless(Pinned(policy.profileHash, r.body.judge.profileHash), WrongProfileHash) +
    Unless(Pinned(policy.promptHash, r.body.judge.promptHash), WrongPrompt) +
    Unless(Pinned(policy.rawHash, r.body.judge.rawHash), WrongRawResponse)
  }

  // The values that occur more than once.
  ghost function Repeated(values: seq<Id>): set<Id> {
    set i, j | 0 <= i < j < |values| && values[i] == values[j] :: values[j]
  }

  method Duplicates(values: seq<Id>) returns (duplicates: set<Id>)
    ensures duplicates == Repeated(values)
  {
    var seen: set<Id> := {};
    duplicates := {};
    for i := 0 to |values|
      invariant seen == Elems(values[..i]) && duplicates == Repeated(values[..i])
    {
      RepeatedSnoc(values[..i], values[i]);
      assert values[..i + 1] == values[..i] + [values[i]];
      if values[i] in seen { duplicates := duplicates + {values[i]}; } else { seen := seen + {values[i]}; }
    }
    assert values[..|values|] == values;
  }

  lemma RepeatedSnoc(values: seq<Id>, v: Id)
    ensures Repeated(values + [v]) == if v in values then Repeated(values) + {v} else Repeated(values)
    ensures Elems(values + [v]) == Elems(values) + {v}
  {
    var all := values + [v];
    forall x ensures x in Repeated(all) <==> x in Repeated(values) || (x == v && v in values) {
      if x in Repeated(all) {
        var i, j :| 0 <= i < j < |all| && all[i] == all[j] == x;
        if j < |values| { assert values[i] == values[j]; } else { assert values[i] == v; }
      }
      if x in Repeated(values) {
        var i, j :| 0 <= i < j < |values| && values[i] == values[j] == x;
        assert all[i] == all[j] == x;
      }
      if x == v && v in values {
        var i :| 0 <= i < |values| && values[i] == v;
        assert all[i] == all[|values|] == v;
      }
    }
  }

  lemma NothingRepeated(values: seq<Id>)
    ensures Repeated(values) == {} <==> Distinct(values)
  {
    DistinctIndices(values);
    if !Distinct(values) {
      var i, j :| 0 <= i < j < |values| && values[i] == values[j];
      assert values[j] in Repeated(values);
    }
  }

  // s[start:end], which never fails and clips at the end of s.
  function Slice(s: string, start: nat, end: nat): string {
    var stop := if end <= |s| then end else |s|;
    if start <= stop then s[start..stop] else ""
  }

  predicate Supports(v: Verdict) {
    v == DirectlySupported || v == SupportedInference
  }

  function FirstSpanError(text: string, spans: seq<Span>): Option<SpanError> {
    if spans == [] then None
    else if spans[0].end > |text| then Some(SpanOutside)
    else if Slice(text, spans[0].start, spans[0].end) != spans[0].text then Some(SpanNotExact)
    else FirstSpanError(text, spans[1..])
  }

  function SpanErrorOf(text: string, j: Judgment): Option<SpanError> {
    if Supports(j.verdict) && j.spans != [] then Some(SupportWithSpans) else FirstSpanError(text, j.spans)
  }

  function ClaimDecision(state: ClaimState, verdict: Verdict): EntailmentDecision {
    if verdict == UncertainVerdict then EntailmentReview
    else if verdict == PartlySupported || verdict == UnsupportedVerdict || verdict == Contradicted then EntailmentFailed
    else if state == SupportedClaim || state == QualifiedClaim then
      (if verdict == DirectlySupported then EntailmentPassed else EntailmentFailed)
    else if Supports(verdict) then EntailmentPassed
    else EntailmentFailed
  }

  // The first judgment of a case.
  function JudgmentFor(judgments: seq<Judgment>, caseId: Id): Option<Judgment> {
    FindBy(JudgmentCase, judgments, caseId)
  }

  function ResultOfCase(c: Case, judgments: seq<Judgment>): CaseResult {
    match JudgmentFor(judgments, c.caseId)
    case None => CaseResult(c.caseId, c.body.claimId, c.body.claimState, None, EntailmentReview, [], "semantic judgment is missing")
    case Some(j) => CaseResult(c.caseId, c.body.claimId, c.body.claimState, Some(j.verdict),
                               ClaimDecision(c.body.claimState, j.verdict), j.spans, j.reason)
  }

  function ErrorsOfCase(c: Case, judgments: seq<Judgment>): seq<Finding> {
    match JudgmentFor(judgments, c.caseId)
    case None => []
    case Some(j) =>
      Unless(j.claimId == c.body.claimId, NamesOtherClaim(c.caseId, j.claimId)) +
      (match SpanErrorOf(c.body.claimText, j) case Some(e) => [BadSpan(c.caseId, e)] case None => [])
  }

  function ResultsOf(cases: seq<Case>, judgments: seq<Judgment>): (r: seq<CaseResult>)
    ensures |r| == |cases| && forall i :: 0 <= i < |cases| ==> r[i] == ResultOfCase(cases[i], judgments)
  {
    seq(|cases|, i requires 0 <= i < |cases| => ResultOfCase(cases[i], judgments))
  }

  function ErrorsOf(cases: seq<Case>, judgments: seq<Judgment>): seq<Finding> {
    if cases == [] then []
    else ErrorsOf(cases[..|cases| - 1], judgments) + ErrorsOfCase(cases[|cases| - 1], judgments)
  }

  ghost function SetErrors(cases: seq<Case>, judgments: seq<Judgment>): seq<Finding> {
    var caseIds, claimIds := Elems(Map(CaseKey, cases)), Elems(Map(CaseClaim, cases));
    var judgedCases, judgedClaims := Map(JudgmentCase, judgments), Map(JudgmentClaim, judgments);
    Unless(Repeated(judgedCases) == {}, DuplicateCases(Repeated(judgedCases))) +
    Unless(Repeated(judgedClaims) == {}, DuplicateClaims(Repeated(judgedClaims))) +
    Unless(caseIds - Elems(judgedCases) == {}, MissingCases(caseIds - Elems(judgedCases))) +
    Unless(Elems(judgedCases) - caseIds == {}, ExtraCases(Elems(judgedCases) - caseIds)) +
    Unless(Elems(judgedClaims) - claimIds == {}, ExtraClaims(Elems(judgedClaims) - claimIds))
  }

  method ClosureErrors(cases: seq<Case>, judgments: seq<Judgment>) returns (errors: seq<Finding>)
    ensures errors == SetErrors(cases, judgments)
  {
    hide Repeated, Unless, Elems, Map;
    var caseIds, claimIds := Elems(Map(CaseKey, cases)), Elems(Map(CaseClaim, cases));
    var judgedCases, judgedClaims := Map(JudgmentCase, judgments), Map(JudgmentClaim, judgments);
    var duplicateCases := Duplicates(judgedCases);
    var duplicateClaims := Duplicates(judgedClaims);
    var missing := caseIds - Elems(judgedCases);
    var extraCases := Elems(judgedCases) - caseIds;
    var extraClaims := Elems(judgedClaims) - claimIds;
    errors := Unless(duplicateCases == {}, DuplicateCases(duplicateCases)) +
              Unless(duplicateClaims == {}, DuplicateClaims(duplicateClaims)) +
              Unless(missing == {}, MissingCases(missing)) +
              Unless(extraCases == {}, ExtraCases(extraCases)) +
              Unless(extraClaims == {}, ExtraClaims(extraClaims));
  }

  method EvaluateJudgments(cases: seq<Case>, judgments: seq<Judgment>) returns (results: seq<CaseResult>, errors: seq<Finding>)
    ensures results == ResultsOf(cases, judgments)
    ensures errors == SetErrors(cases, judgments) + ErrorsOf(cases, judgments)
  {
    hide ResultOfCase, ErrorsOfCase, SetErrors;
    errors := ClosureErrors(cases, judgments);
    results := [];
    ghost var perCase: seq<Finding> := [];
    for i := 0 to |cases|
      invariant |results| == i && forall k :: 0 <= k < i ==> results[k] == ResultOfCase(cases[k], judgments)
      invariant perCase == ErrorsOf(cases[..i], judgments) && errors == SetErrors(cases, judgments) + perCase
    {
      assert cases[..i + 1][..i] == cases[..i];
      perCase := perCase + ErrorsOfCase(cases[i], judgments);
      errors := errors + ErrorsOfCase(cases[i], judgments);
      results := results + [ResultOfCase(cases[i], judgments)];
    }
    assert cases[..|cases|] == cases;
  }

  function ClaimsDecided(results: seq<CaseResult>, decision: EntailmentDecision): seq<Id> {
    if results == [] then []
    else (if results[0].decision == decision then [results[0].claimId] else []) + ClaimsDecided(results[1..], decision)
  }

  ghost function EntailmentOutcome(
    h: Host, s: CaseSet, contract: ContractResult, coverage: CoverageResult, receipt: Option<Receipt>, policy: Policy): EntailmentResult
  {
    match PrerequisiteError(s, contract, coverage)
    case Some(skipped) => EntailmentResult(EntailmentUnchecked, s.ref, None, [], [], [], Some(skipped))
    case None =>
      match receipt
      case None => EntailmentResult(EntailmentReview, s.ref, None, [], [], [ReceiptMissing], None)
      case Some(r) =>
        var results := ResultsOf(s.body.cases, r.body.judgments);
        var errors := IntegrityErrors(h, s, r, policy) + SetErrors(s.body.cases, r.body.judgments) + ErrorsOf(s.body.cases, r.body.judgments);
        Judged(s, r, results, errors)
  }

  // Integrity errors first, then failed claims, then uncertain ones.
  function Judged(s: CaseSet, r: Receipt, results: seq<CaseResult>, errors: seq<Finding>): EntailmentResult {
    if errors != [] then EntailmentResult(EntailmentReview, s.ref, Some(r.ref), results, [], errors, None)
    else
      var failed, uncertain := ClaimsDecided(results, EntailmentFailed), ClaimsDecided(results, EntailmentReview);
      EntailmentResult(
        if failed != [] then EntailmentFailed else if uncertain != [] then EntailmentReview else EntailmentPassed,
        s.ref, Some(r.ref), results, failed, Map(id => CaseUncertain(id), uncertain), None)
  }

  method EvaluateEntailment(
    h: Host, s: CaseSet, contract: ContractResult, coverage: CoverageResult, receipt: Option<Receipt>, policy: Policy)
    returns (result: EntailmentResult)
    ensures result == EntailmentOutcome(h, s, contract, coverage, receipt, policy)
  {
    hide IntegrityErrors, SetErrors, ErrorsOf, ResultsOf, Judged;
    var skipped := PrerequisiteError(s, contract, coverage);
    if skipped.Some? { return EntailmentResult(EntailmentUnchecked, s.ref, None, [], [], [], skipped); }
    if receipt.None? { return EntailmentResult(EntailmentReview, s.ref, None, [], [], [ReceiptMissing], None); }
    var r := receipt.value;
    var errors := IntegrityErrors(h, s, r, policy);
    var results, closure := EvaluateJudgments(s.body.cases, r.body.judgments);
    assert errors + closure == errors + SetErrors(s.body.cases, r.body.judgments) + ErrorsOf(s.body.cases, r.body.judgments);
    return Judged(s, r, results, errors + closure);
  }
}
