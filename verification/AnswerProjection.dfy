// Clause-level projection of an answer, and the gate that decides whether the
// answer may be displayed.

module AnswerProjection {
  import opened Common
  import opened ClaimEntailment

  datatype PropositionKind = Fact | Synthesis | Hypothesis | OpenQuestion | Framing

  datatype PropositionVerdict =
    | Entailed | BoundedSynthesis | DisclosedHypothesis | AsksOpenly | NonPropositional | Unsupported | Uncertain

  datatype Probe = Probe(testQuestion: string, falsifier: string, nextEvidence: string)

  datatype PropositionBody = PropositionBody(
    start: nat, end: nat, text: string, kind: PropositionKind, claimIds: seq<Id>, probe: Option<Probe>)

  datatype Proposition = Proposition(propositionId: Id, body: PropositionBody)

  datatype ProjectionBody = ProjectionBody(
    answer: Ref, caseSet: Ref, entailmentReceipt: Ref, author: Judge, propositions: seq<Proposition>)

  datatype ProjectionData = ProjectionData(ref: Ref, body: ProjectionBody)

  datatype RoleJudgment = RoleJudgment(propositionId: Id, verdict: PropositionVerdict, reason: string)

  datatype RoleReceiptBody = RoleReceiptBody(projection: Ref, judge: Judge, judgments: seq<RoleJudgment>)

  datatype RoleReceipt = RoleReceipt(ref: Ref, body: RoleReceiptBody)

  datatype Addresses = Addresses(
    propositionId: PropositionBody -> Id, projectionRef: ProjectionBody -> Ref, roleReceiptRef: RoleReceiptBody -> Ref)

  function PropositionKey(p: Proposition): Id { p.propositionId }

  function RoleKey(j: RoleJudgment): Id { j.propositionId }

  // A proposition's own validator: an exact length, unique premises, premises
  // for every kind but framing, a probe for hypotheses alone.
  predicate ValidProposition(p: PropositionBody) {
    p.start < p.end && p.end - p.start == |p.text| && Distinct(p.claimIds) &&
    (p.kind == Framing <==> p.claimIds == []) && (p.kind == Hypothesis <==> p.probe.Some?)
  }

  predicate Contiguous(ps: seq<Proposition>) {
    ps != [] && ps[0].body.start == 0 &&
    forall i :: 0 < i < |ps| ==> ps[i].body.start == ps[i - 1].body.end
  }

  predicate ValidProjection(p: ProjectionData) {
    UniqueBy(p.body.propositions, PropositionKey) && Contiguous(p.body.propositions) &&
    forall x :: x in p.body.propositions ==> ValidProposition(x.body)
  }

  function SampleProjection(): (p: ProjectionData)
    ensures ValidProjection(p)
  {
    var p := Proposition("", PropositionBody(0, 1, "x", Framing, [], None));
    assert Elems(Map(PropositionKey, [p])) == {""} && Elems<Id>([]) == {};
    var none := Ref("", "");
    ProjectionData(none, ProjectionBody(none, none, none, Judge(Human, "", "", "", ""), [p]))
  }

  type Projection = p: ProjectionData | ValidProjection(p)
    witness SampleProjection()

  // ------------------------------------------------------------------ findings

  datatype BindingFinding = IdentityInvalid | OtherAnswer | NotTheEntailment

  datatype TextFinding = Incomplete | NotExact(propositionId: Id)

  datatype RoleFinding =
    | RoleReceiptMissing | RoleIdWrong | RoleHashWrong | OtherProjection | RepeatedRoles | RolesNotClosed
    | OtherJudgeKind | OtherProfileId | OtherProfileHash | OtherPrompt | OtherRawResponse

  datatype RouteFinding =
    | ClaimAbsent(claimId: Id) | NoSemanticResult(claimId: Id) | NotClosed(claimId: Id) | NotSupported(claimId: Id)
    | NotFactual(claimId: Id) | NoDirectSupport(claimId: Id) | RoleUncertain | Overclaims | RoleConflict

  datatype Findings = Findings(violations: seq<RouteFinding>, review: seq<RouteFinding>)

  datatype ProjectionDecision = ProjectionPassed | ProjectionFailed | ProjectionReview

  datatype PropositionCoverage = PropositionCoverage(
    propositionId: Id, kind: PropositionKind, verdict: Option<PropositionVerdict>, claimIds: seq<Id>, closed: bool)

  datatype ReviewReason =
    | BindingReason(binding: BindingFinding) | RoleReason(role: RoleFinding) | RouteReason(propositionId: Id, route: RouteFinding)

  datatype Violation = TextViolation(text: TextFinding) | RouteViolation(propositionId: Id, route: RouteFinding)

  datatype ProjectionResult = ProjectionResult(
    decision: ProjectionDecision, projection: Ref, receipt: Option<Ref>, propositions: seq<PropositionCoverage>,
    violations: seq<Violation>, reviewReasons: seq<ReviewReason>, displayEligible: bool)

  function Needed<T>(holds: bool, finding: T): seq<T> {
    if holds then [] else [finding]
  }

  predicate Identified(d: Addresses, p: Projection) {
    p.ref == d.projectionRef(p.body) &&
    forall x :: x in p.body.propositions ==> x.propositionId == d.propositionId(x.body)
  }

  function BindingFindings(h: Host, d: Addresses, a: Answer, s: CaseSet, e: EntailmentResult, p: Projection): seq<BindingFinding> {
    Needed(Identified(d, p), IdentityInvalid) +
    Needed(p.body.answer == h.answerRef(a) && s.body.answer == h.answerRef(a) && p.body.caseSet == s.ref, OtherAnswer) +
    Needed(e.decision == EntailmentPassed && e.caseSet == s.ref && e.receipt == Some(p.body.entailmentReceipt), NotTheEntailment)
  }

  function InexactSpans(text: string, ps: seq<Proposition>): seq<TextFinding> {
    if ps == [] then []
    else
      var last := ps[|ps| - 1];
      InexactSpans(text, ps[..|ps| - 1]) +
      Needed(Slice(text, last.body.start, last.body.end) == last.body.text, NotExact(last.propositionId))
  }

  function TextFindings(a: Answer, p: Projection): seq<TextFinding> {
    var ps := p.body.propositions;
    Needed(ps[|ps| - 1].body.end == |a.shortAnswer|, Incomplete) + InexactSpans(a.shortAnswer, ps)
  }

  method ProjectionTextFindings(a: Answer, p: Projection) returns (findings: seq<TextFinding>)
    ensures findings == TextFindings(a, p)
  {
    hide ValidAnswer, ValidProjection, Slice;
    HasPropositions(p);
    var ps := p.body.propositions;
    findings := [];
    if ps[|ps| - 1].body.end != |a.shortAnswer| { findings := findings + [Incomplete]; }
    var spans := SpanFindings(a.shortAnswer, ps);
    findings := findings + spans;
  }

  lemma HasPropositions(p: Projection)
    ensures p.body.propositions != []
  {
  }

  method SpanFindings(text: string, ps: seq<Proposition>) returns (findings: seq<TextFinding>)
    ensures findings == InexactSpans(text, ps)
  {
    hide Slice;
    findings := [];
    for i := 0 to |ps|
      invariant findings == InexactSpans(text, ps[..i])
    {
      assert ps[..i + 1][..i] == ps[..i];
      if Slice(text, ps[i].body.start, ps[i].body.end) != ps[i].body.text {
        findings := findings + [NotExact(ps[i].propositionId)];
      }
    }
    assert ps[..|ps|] == ps;
  }

  function RoleFindings(d: Addresses, p: Projection, receipt: Option<RoleReceipt>, policy: Policy): seq<RoleFinding> {
    if receipt.None? then [RoleReceiptMissing]
    else
      var r := receipt.value;
      var judged := Map(RoleKey, r.body.judgments);
      Needed(r.ref.id == d.roleReceiptRef(r.body).id, RoleIdWrong) +
      Needed(r.ref.hash == d.roleReceiptRef(r.body).hash, RoleHashWrong) +
      Needed(r.body.projection == p.ref, OtherProjection) +
      Needed(Distinct(judged), RepeatedRoles) +
      Needed(Elems(judged) == Elems(Map(PropositionKey, p.body.propositions)), RolesNotClosed) +
      Needed(Pinned(policy.kind, r.body.judge.kind), OtherJudgeKind) +
      Needed(Pinned(policy.profileId, r.body.judge.profileId), OtherProfileId) +
      Needed(Pinned(policy.profileHash, r.body.judge.profileHash), OtherProfileHash) +
      Needed(Pinned(policy.promptHash, r.body.judge.promptHash), OtherPrompt) +
      Needed(Pinned(policy.rawHash, r.body.judge.rawHash), OtherRawResponse)
  }

  function OutcomeKey(c: CaseResult): Id { c.claimId }

  // {item.claim_id: item for item in cases}: of two results for a claim the later counts.
  function OutcomeFor(outcomes: seq<CaseResult>, id: Id): (r: Option<CaseResult>)
    ensures r.Some? ==> r.value in outcomes && r.value.claimId == id
    ensures r.None? ==> forall x :: x in outcomes ==> x.claimId != id
  {
    if outcomes == [] then None
    else
      var front, last := outcomes[..|outcomes| - 1], outcomes[|outcomes| - 1];
      assert outcomes == front + [last];
      if last.claimId == id then Some(last) else OutcomeFor(front, id)
  }

  lemma OneOutcome(outcomes: seq<CaseResult>, x: CaseResult)
    requires UniqueBy(outcomes, OutcomeKey) && x in outcomes
    ensures OutcomeFor(outcomes, x.claimId) == Some(x)
  {
    UniqueByIds(outcomes, OutcomeKey, OutcomeFor(outcomes, x.claimId).value, x);
  }

  // What one premise of a proposition adds to the findings.
  function PremiseFindings(kind: PropositionKind, a: Answer, outcomes: seq<CaseResult>, id: Id): Findings {
    match FindBy(ClaimKey, a.claims, id)
    case None => Findings([ClaimAbsent(id)], [])
    case Some(claim) =>
      match OutcomeFor(outcomes, id)
      case None => Findings([], [NoSemanticResult(id)])
      case Some(outcome) =>
        if outcome.decision != EntailmentPassed then Findings([], [NotClosed(id)])
        else Findings(
          Needed(outcome.verdict.Some? && Supports(outcome.verdict.value), NotSupported(id)) +
          Needed(kind == Fact ==> claim.state == SupportedClaim || claim.state == QualifiedClaim, NotFactual(id)) +
          Needed(kind == Fact ==> outcome.verdict == Some(DirectlySupported), NoDirectSupport(id)), [])
  }

  function Both(x: Findings, y: Findings): Findings {
    Findings(x.violations + y.violations, x.review + y.review)
  }

  function PremisesFindings(kind: PropositionKind, a: Answer, outcomes: seq<CaseResult>, ids: seq<Id>): Findings {
    if ids == [] then Findings([], [])
    else Both(PremisesFindings(kind, a, outcomes, ids[..|ids| - 1]), PremiseFindings(kind, a, outcomes, ids[|ids| - 1]))
  }

  function RoleOf(kind: PropositionKind): PropositionVerdict {
    match kind
    case Fact => Entailed
    case Synthesis => BoundedSynthesis
    case Hypothesis => DisclosedHypothesis
    case OpenQuestion => AsksOpenly
    case Framing => NonPropositional
  }

  function VerdictFindings(kind: PropositionKind, verdict: PropositionVerdict): Findings {
    if verdict == Uncertain then Findings([], [RoleUncertain])
    else if verdict == Unsupported then Findings([Overclaims], [])
    else Findings(Needed(verdict == RoleOf(kind), RoleConflict), [])
  }

  function PropositionFindings(p: PropositionBody, a: Answer, outcomes: seq<CaseResult>, verdict: PropositionVerdict): Findings {
    Both(if p.kind == Framing then Findings([], []) else PremisesFindings(p.kind, a, outcomes, p.claimIds),
         VerdictFindings(p.kind, verdict))
  }

  method PremiseRoute(kind: PropositionKind, a: Answer, outcomes: seq<CaseResult>, id: Id) returns (findings: Findings)
    ensures findings == PremiseFindings(kind, a, outcomes, id)
  {
    hide ValidAnswer, FindBy, OutcomeFor;
    var claim, outcome := FindBy(ClaimKey, a.claims, id), OutcomeFor(outcomes, id);
    if claim.None? { return Findings([ClaimAbsent(id)], []); }
    if outcome.None? { return Findings([], [NoSemanticResult(id)]); }
    if outcome.value.decision != EntailmentPassed { return Findings([], [NotClosed(id)]); }
    var violations: seq<RouteFinding> := [];
    if !(outcome.value.verdict.Some? && Supports(outcome.value.verdict.value)) { violations := violations + [NotSupported(id)]; }
    if kind == Fact {
      if claim.value.state != SupportedClaim && claim.value.state != QualifiedClaim { violations := violations + [NotFactual(id)]; }
      if outcome.value.verdict != Some(DirectlySupported) { violations := violations + [NoDirectSupport(id)]; }
    }
    return Findings(violations, []);
  }

  // Appends a proposition's premise findings to the shared lists.
  method ClaimRouteFindings(p: PropositionBody, a: Answer, outcomes: seq<CaseResult>) returns (findings: Findings)
    ensures findings == if p.kind == Framing then Findings([], []) else PremisesFindings(p.kind, a, outcomes, p.claimIds)
  {
    hide ValidAnswer, PremiseFindings;
    findings := Findings([], []);
    if p.kind == Framing { return; }
    for i := 0 to |p.claimIds|
      invariant findings == PremisesFindings(p.kind, a, outcomes, p.claimIds[..i])
    {
      assert p.claimIds[..i + 1][..i] == p.claimIds[..i];
      var local := PremiseRoute(p.kind, a, outcomes, p.claimIds[i]);
      findings := Both(findings, local);
    }
    assert p.claimIds[..|p.claimIds|] == p.claimIds;
  }

  // --------------------------------------------------------------------- gate

  function Unclosed(ps: seq<Proposition>): seq<PropositionCoverage> {
    Map((p: Proposition) => PropositionCoverage(p.propositionId, p.body.kind, None, p.body.claimIds, false), ps)
  }

  // The verdict of the proposition's judgment; the gate looks it up only after
  // the receipt was found to judge every proposition.
  function VerdictOf(judgments: seq<RoleJudgment>, id: Id): PropositionVerdict {
    match FindBy(RoleKey, judgments, id)
    case Some(j) => j.verdict
    case None => Uncertain
  }

  function FindingsFor(a: Answer, e: EntailmentResult, judgments: seq<RoleJudgment>, p: Proposition): Findings {
    PropositionFindings(p.body, a, e.cases, VerdictOf(judgments, p.propositionId))
  }

  function CoverageFor(a: Answer, e: EntailmentResult, judgments: seq<RoleJudgment>, p: Proposition): PropositionCoverage {
    PropositionCoverage(p.propositionId, p.body.kind, Some(VerdictOf(judgments, p.propositionId)), p.body.claimIds,
                        FindingsFor(a, e, judgments, p) == Findings([], []))
  }

  function RouteViolations(id: Id, findings: seq<RouteFinding>): seq<Violation> {
    Map((f: RouteFinding) => RouteViolation(id, f), findings)
  }

  function RouteReasons(id: Id, findings: seq<RouteFinding>): seq<ReviewReason> {
    Map((f: RouteFinding) => RouteReason(id, f), findings)
  }

  function AllViolations(a: Answer, e: EntailmentResult, judgments: seq<RoleJudgment>, ps: seq<Proposition>): seq<Violation> {
    if ps == [] then []
    else
      var last := ps[|ps| - 1];
      AllViolations(a, e, judgments, ps[..|ps| - 1]) +
      RouteViolations(last.propositionId, FindingsFor(a, e, judgments, last).violations)
  }

  function AllReasons(a: Answer, e: EntailmentResult, judgments: seq<RoleJudgment>, ps: seq<Proposition>): seq<ReviewReason> {
    if ps == [] then []
    else
      var last := ps[|ps| - 1];
      AllReasons(a, e, judgments, ps[..|ps| - 1]) + RouteReasons(last.propositionId, FindingsFor(a, e, judgments, last).review)
  }

  function Coverages(a: Answer, e: EntailmentResult, judgments: seq<RoleJudgment>, ps: seq<Proposition>): (r: seq<PropositionCoverage>)
    ensures |r| == |ps| && forall i :: 0 <= i < |ps| ==> r[i] == CoverageFor(a, e, judgments, ps[i])
  {
    seq(|ps|, i requires 0 <= i < |ps| => CoverageFor(a, e, judgments, ps[i]))
  }

  function Result(
    p: Projection, receipt: Option<RoleReceipt>, decision: ProjectionDecision, propositions: seq<PropositionCoverage>,
    violations: seq<Violation>, reasons: seq<ReviewReason>): ProjectionResult
  {
    ProjectionResult(decision, p.ref, if receipt.Some? then Some(receipt.value.ref) else None, propositions,
                     violations, reasons, decision == ProjectionPassed)
  }

  function JudgedProjection(a: Answer, e: EntailmentResult, p: Projection, r: RoleReceipt): ProjectionResult {
    var ps := p.body.propositions;
    var violations := AllViolations(a, e, r.body.judgments, ps);
    var reasons := AllReasons(a, e, r.body.judgments, ps);
    Result(p, Some(r), if violations != [] then ProjectionFailed else if reasons != [] then ProjectionReview else ProjectionPassed,
           Coverages(a, e, r.body.judgments, ps), violations, reasons)
  }

  function ProjectionOutcome(
    h: Host, d: Addresses, a: Answer, s: CaseSet, e: EntailmentResult, p: Projection,
    receipt: Option<RoleReceipt>, policy: Policy): ProjectionResult
  {
    var ps := p.body.propositions;
    var bindings := BindingFindings(h, d, a, s, e, p);
    var texts := TextFindings(a, p);
    var roles := RoleFindings(d, p, receipt, policy);
    if bindings != [] then Result(p, receipt, ProjectionReview, Unclosed(ps), [], Map(f => BindingReason(f), bindings))
    else if texts != [] then Result(p, receipt, ProjectionFailed, Unclosed(ps), Map(f => TextViolation(f), texts), [])
    else if roles != [] then Result(p, receipt, ProjectionReview, Unclosed(ps), [], Map(f => RoleReason(f), roles))
    else JudgedProjection(a, e, p, receipt.value)
  }

  method EvaluateProjection(
    h: Host, d: Addresses, a: Answer, s: CaseSet, e: EntailmentResult, p: Projection,
    receipt: Option<RoleReceipt>, policy: Policy) returns (result: ProjectionResult)
    ensures result == ProjectionOutcome(h, d, a, s, e, p, receipt, policy)
  {
    hide BindingFindings, TextFindings, RoleFindings, JudgedProjection, ValidAnswer, ValidProjection;
    RolesNeedReceipt(d, p, receipt, policy);
    var ps := p.body.propositions;
    var bindings := BindingFindings(h, d, a, s, e, p);
    if bindings != [] {
      return Result(p, receipt, ProjectionReview, Unclosed(ps), [], Map(f => BindingReason(f), bindings));
    }
    var texts := ProjectionTextFindings(a, p);
    var roles := RoleFindings(d, p, receipt, policy);
    if texts != [] { return Result(p, receipt, ProjectionFailed, Unclosed(ps), Map(f => TextViolation(f), texts), []); }
    if roles != [] { return Result(p, receipt, ProjectionReview, Unclosed(ps), [], Map(f => RoleReason(f), roles)); }
    result := JudgePropositions(a, e, p, receipt.value);
  }

  lemma RolesNeedReceipt(d: Addresses, p: Projection, receipt: Option<RoleReceipt>, policy: Policy)
    ensures RoleFindings(d, p, receipt, policy) == [] ==> receipt.Some?
  {
  }

  method JudgePropositions(a: Answer, e: EntailmentResult, p: Projection, r: RoleReceipt) returns (result: ProjectionResult)
    ensures result == JudgedProjection(a, e, p, r)
  {
    hide PremisesFindings, VerdictFindings, RouteViolations, RouteReasons, VerdictOf, ValidAnswer, ValidProjection;
    var ps, judgments := p.body.propositions, r.body.judgments;
    var violations: seq<Violation> := [];
    var reasons: seq<ReviewReason> := [];
    var results: seq<PropositionCoverage> := [];
    for i := 0 to |ps|
      invariant violations == AllViolations(a, e, judgments, ps[..i]) && reasons == AllReasons(a, e, judgments, ps[..i])
      invariant |results| == i && forall k :: 0 <= k < i ==> results[k] == CoverageFor(a, e, judgments, ps[k])
    {
      assert ps[..i + 1][..i] == ps[..i];
      var verdict := VerdictOf(judgments, ps[i].propositionId);
      var routes := ClaimRouteFindings(ps[i].body, a, e.cases);
      var local := Both(routes, VerdictFindings(ps[i].body.kind, verdict));
      assert local == FindingsFor(a, e, judgments, ps[i]);
      violations := violations + RouteViolations(ps[i].propositionId, local.violations);
      reasons := reasons + RouteReasons(ps[i].propositionId, local.review);
      results := results + [PropositionCoverage(
        ps[i].propositionId, ps[i].body.kind, Some(verdict), ps[i].body.claimIds, local.violations == [] && local.review == [])];
    }
    assert ps[..|ps|] == ps;
    assert results == Coverages(a, e, judgments, ps);
    var decision := if violations != [] then ProjectionFailed else if reasons != [] then ProjectionReview else ProjectionPassed;
    return Result(p, Some(r), decision, results, violations, reasons);
  }
}
