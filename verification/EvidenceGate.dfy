// The evidence coverage gate: which declared requirements exact fragments cover.

module EvidenceGate {
  import opened Common
  import opened Ordering
  import opened LiteralSearch

  datatype Profile = ProfileV1 | ProfileV2 | ProfileV3

  datatype Answerability = Answerable | NotInCorpus

  datatype Decision = Ready | Partial | Insufficient | GapPreserved | GapChallenged

  datatype Candidate = Candidate(
    rank: int, fragmentId: Id, sourceId: Id, text: string, sourceKind: string, sourceFamily: string,
    authority: string, group: string, tags: seq<string>)

  datatype Requirement = Requirement(
    requirementId: Id, allowedSourceIds: seq<Id>, sourceKinds: seq<string>, sourceFamilies: seq<string>,
    authorities: seq<string>, anchorGroups: seq<seq<string>>, requiredTags: seq<string>,
    forbiddenAnchors: seq<string>, minGroups: nat)

  datatype Spec = Spec(
    requirements: seq<Requirement>, expected: Answerability, minTotalGroups: nat, profile: Profile)

  datatype Code =
    | WrongSource | WrongSourceKind | WrongSourceFamily | WrongAuthority
    | MissingAnchorGroup(index: nat) | MissingTag(tag: string) | ForbiddenAnchorPresent

  datatype Assessment = Assessment(fragmentId: Id, sourceId: Id, rank: int, codes: seq<Code>)

  datatype MissingCondition = NoCandidateSatisfies | TooFewGroups

  // Where the source lists a set in sorted order, the set itself stands here.
  datatype Coverage = Coverage(
    requirementId: Id, covered: bool, matchedFragments: seq<Id>, matchedSources: set<Id>,
    matchedGroups: set<string>, missing: Option<MissingCondition>, closest: seq<Assessment>)

  datatype GateResult = GateResult(
    candidateSetHash: string, decision: Decision, coveredIds: seq<Id>, missingIds: seq<Id>,
    matchedGroups: set<string>, tooFewGroups: bool, coverages: seq<Coverage>)

  datatype GateError = FragmentIdsRepeat | SourceConflict | FamilyConflict

  // The text operations behind the gate, and the digest of an ordered candidate list.
  datatype Matching = Matching(u: Unicode, matchText: string -> string, digest: seq<Candidate> -> string)

  const CLOSEST_LIMIT := 3

  function FragmentKey(c: Candidate): Id { c.fragmentId }

  // ------------------------------------------------------------- assessment

  function FoldLiteralText(w: Matching, p: Profile, text: string): string {
    match p
    case ProfileV1 => w.matchText(text)
    case ProfileV2 => w.u.fold(text)
    case ProfileV3 => w.u.normalizeStrict(text)
  }

  ghost predicate LiteralIn(w: Matching, p: Profile, folded: string, literal: string) {
    match p
    case ProfileV1 => exists i :: OccursAt(folded, w.matchText(literal), i)
    case ProfileV2 => Present(w.u.IsWord, folded, w.u.fold(literal))
    case ProfileV3 => Present(w.u.IsStrictWord, folded, w.u.normalizeStrict(literal))
  }

  method LiteralPresent(w: Matching, p: Profile, folded: string, literal: string) returns (present: bool)
    ensures present <==> LiteralIn(w, p, folded, literal)
  {
    match p
    case ProfileV1 =>
      var at := Find(folded, w.matchText(literal), 0);
      present := at.Some?;
    case ProfileV2 => present := FoldedLiteralPresent(w.u, folded, literal);
    case ProfileV3 => present := StrictLiteralPresent(w.u, folded, literal);
  }

  ghost predicate AnyLiteralIn(w: Matching, p: Profile, folded: string, literals: seq<string>) {
    exists literal :: literal in literals && LiteralIn(w, p, folded, literal)
  }

  method AnyLiteralPresent(w: Matching, p: Profile, folded: string, literals: seq<string>) returns (present: bool)
    ensures present <==> AnyLiteralIn(w, p, folded, literals)
  {
    for i := 0 to |literals|
      invariant forall literal :: literal in literals[..i] ==> !LiteralIn(w, p, folded, literal)
    {
      var here := LiteralPresent(w, p, folded, literals[i]);
      if here { return true; }
      assert literals[..i + 1] == literals[..i] + [literals[i]];
    }
    assert literals[..|literals|] == literals;
    return false;
  }

  predicate MatchesSelector(w: Matching, value: string, choices: seq<string>) {
    exists choice :: choice in choices && w.matchText(value) == w.matchText(choice)
  }

  predicate HasTag(w: Matching, c: Candidate, tag: string) {
    exists mine :: mine in c.tags && w.matchText(mine) == w.matchText(tag)
  }

  function SelectorCodes(w: Matching, r: Requirement, c: Candidate): seq<Code> {
    (if r.allowedSourceIds != [] && c.sourceId !in r.allowedSourceIds then [WrongSource] else []) +
    (if r.sourceKinds != [] && !MatchesSelector(w, c.sourceKind, r.sourceKinds) then [WrongSourceKind] else []) +
    (if r.sourceFamilies != [] && !MatchesSelector(w, c.sourceFamily, r.sourceFamilies) then [WrongSourceFamily] else []) +
    (if r.authorities != [] && !MatchesSelector(w, c.authority, r.authorities) then [WrongAuthority] else [])
  }

  ghost function AnchorCodes(w: Matching, p: Profile, folded: string, groups: seq<seq<string>>): seq<Code> {
    if groups == [] then []
    else AnchorCodes(w, p, folded, groups[..|groups| - 1]) +
         (if AnyLiteralIn(w, p, folded, groups[|groups| - 1]) then [] else [MissingAnchorGroup(|groups|)])
  }

  function TagCodes(w: Matching, c: Candidate, tags: seq<string>): seq<Code> {
    if tags == [] then []
    else TagCodes(w, c, tags[..|tags| - 1]) +
         (if HasTag(w, c, tags[|tags| - 1]) then [] else [MissingTag(tags[|tags| - 1])])
  }

  ghost function Codes(w: Matching, p: Profile, r: Requirement, c: Candidate): seq<Code> {
    var folded := FoldLiteralText(w, p, c.text);
    SelectorCodes(w, r, c) + AnchorCodes(w, p, folded, r.anchorGroups) + TagCodes(w, c, r.requiredTags) +
    (if AnyLiteralIn(w, p, folded, r.forbiddenAnchors) then [ForbiddenAnchorPresent] else [])
  }

  ghost function Assess(w: Matching, p: Profile, r: Requirement, c: Candidate): Assessment {
    Assessment(c.fragmentId, c.sourceId, c.rank, Codes(w, p, r, c))
  }

  method SelectorRejections(w: Matching, r: Requirement, c: Candidate) returns (codes: seq<Code>)
    ensures codes == SelectorCodes(w, r, c)
  {
    hide MatchesSelector;
    codes := [];
    if r.allowedSourceIds != [] && c.sourceId !in r.allowedSourceIds { codes := codes + [WrongSource]; }
    if r.sourceKinds != [] && !MatchesSelector(w, c.sourceKind, r.sourceKinds) { codes := codes + [WrongSourceKind]; }
    if r.sourceFamilies != [] && !MatchesSelector(w, c.sourceFamily, r.sourceFamilies) { codes := codes + [WrongSourceFamily]; }
    if r.authorities != [] && !MatchesSelector(w, c.authority, r.authorities) { codes := codes + [WrongAuthority]; }
  }

  method AnchorRejections(w: Matching, p: Profile, folded: string, groups: seq<seq<string>>) returns (codes: seq<Code>)
    ensures codes == AnchorCodes(w, p, folded, groups)
  {
    hide AnyLiteralIn;
    codes := [];
    for i := 0 to |groups|
      invariant codes == AnchorCodes(w, p, folded, groups[..i])
    {
      var here := AnyLiteralPresent(w, p, folded, groups[i]);
      assert groups[..i + 1][..i] == groups[..i];
      if !here { codes := codes + [MissingAnchorGroup(i + 1)]; }
    }
    assert groups[..|groups|] == groups;
  }

  method TagRejections(w: Matching, c: Candidate, tags: seq<string>) returns (codes: seq<Code>)
    ensures codes == TagCodes(w, c, tags)
  {
    hide HasTag;
    codes := [];
    for i := 0 to |tags|
      invariant codes == TagCodes(w, c, tags[..i])
    {
      assert tags[..i + 1][..i] == tags[..i];
      if !HasTag(w, c, tags[i]) { codes := codes + [MissingTag(tags[i])]; }
    }
    assert tags[..|tags|] == tags;
  }

  method AssessCandidate(w: Matching, p: Profile, r: Requirement, c: Candidate) returns (a: Assessment)
    ensures a == Assess(w, p, r, c)
  {
    hide AnyLiteralIn, SelectorCodes, AnchorCodes, TagCodes, FoldLiteralText;
    var codes := SelectorRejections(w, r, c);
    var folded := FoldLiteralText(w, p, c.text);
    var anchors := AnchorRejections(w, p, folded, r.anchorGroups);
    var tags := TagRejections(w, c, r.requiredTags);
    codes := codes + anchors + tags;
    var forbidden := AnyLiteralPresent(w, p, folded, r.forbiddenAnchors);
    if forbidden { codes := codes + [ForbiddenAnchorPresent]; } else { assert codes + [] == codes; }
    a := Assessment(c.fragmentId, c.sourceId, c.rank, codes);
  }

  // The conditions a fragment must meet all at once.
  ghost predicate Satisfies(w: Matching, p: Profile, r: Requirement, c: Candidate) {
    var folded := FoldLiteralText(w, p, c.text);
    (r.allowedSourceIds == [] || c.sourceId in r.allowedSourceIds) &&
    (r.sourceKinds == [] || MatchesSelector(w, c.sourceKind, r.sourceKinds)) &&
    (r.sourceFamilies == [] || MatchesSelector(w, c.sourceFamily, r.sourceFamilies)) &&
    (r.authorities == [] || MatchesSelector(w, c.authority, r.authorities)) &&
    (forall g :: g in r.anchorGroups ==> AnyLiteralIn(w, p, folded, g)) &&
    (forall tag :: tag in r.requiredTags ==> HasTag(w, c, tag)) &&
    (forall literal :: literal in r.forbiddenAnchors ==> !LiteralIn(w, p, folded, literal))
  }

  lemma {:induction false} NoAnchorCodes(w: Matching, p: Profile, folded: string, groups: seq<seq<string>>)
    ensures AnchorCodes(w, p, folded, groups) == [] <==> forall g :: g in groups ==> AnyLiteralIn(w, p, folded, g)
  {
    hide AnyLiteralIn;
    if groups != [] {
      NoAnchorCodes(w, p, folded, groups[..|groups| - 1]);
      assert groups == groups[..|groups| - 1] + [groups[|groups| - 1]];
    }
  }

  lemma {:induction false} NoTagCodes(w: Matching, c: Candidate, tags: seq<string>)
    ensures TagCodes(w, c, tags) == [] <==> forall tag :: tag in tags ==> HasTag(w, c, tag)
  {
    hide HasTag;
    if tags != [] {
      NoTagCodes(w, c, tags[..|tags| - 1]);
      assert tags == tags[..|tags| - 1] + [tags[|tags| - 1]];
    }
  }

  // A candidate is left without a rejection code exactly when it meets every
  // condition of the requirement.
  lemma NoCodesExactly(w: Matching, p: Profile, r: Requirement, c: Candidate)
    ensures Codes(w, p, r, c) == [] <==> Satisfies(w, p, r, c)
  {
    var folded := FoldLiteralText(w, p, c.text);
    hide MatchesSelector, HasTag, LiteralIn, FoldLiteralText;
    NoAnchorCodes(w, p, folded, r.anchorGroups);
    NoTagCodes(w, c, r.requiredTags);
  }

  // ------------------------------------------------------------- requirements

  predicate CandidateLeq(a: Candidate, b: Candidate) {
    a.rank < b.rank || (a.rank == b.rank && StrLeq(a.fragmentId, b.fragmentId))
  }

  predicate CloserLeq(a: Assessment, b: Assessment) {
    |a.codes| < |b.codes| ||
    (|a.codes| == |b.codes| && (a.rank < b.rank || (a.rank == b.rank && StrLeq(a.fragmentId, b.fragmentId))))
  }

  ghost function Assessments(w: Matching, p: Profile, r: Requirement, cs: seq<Candidate>): (found: seq<Assessment>)
    ensures |found| == |cs| && forall i :: 0 <= i < |cs| ==> found[i] == Assess(w, p, r, cs[i])
  {
    seq(|cs|, i requires 0 <= i < |cs| => Assess(w, p, r, cs[i]))
  }

  function MatchedOf(cs: seq<Candidate>, found: seq<Assessment>): seq<Candidate>
    requires |cs| == |found|
  {
    if cs == [] then []
    else (if found[0].codes == [] then [cs[0]] else []) + MatchedOf(cs[1..], found[1..])
  }

  function Rejected(found: seq<Assessment>): seq<Assessment> {
    Filter((a: Assessment) => a.codes != [], found)
  }

  function Closest(found: seq<Assessment>): seq<Assessment> {
    var sorted := Sort(CloserLeq, Rejected(found));
    if |sorted| <= CLOSEST_LIMIT then sorted else sorted[..CLOSEST_LIMIT]
  }

  function GroupsOf(cs: seq<Candidate>): set<string> {
    set c | c in cs :: c.group
  }

  function CoverageOf(r: Requirement, cs: seq<Candidate>, found: seq<Assessment>): Coverage
    requires |cs| == |found|
  {
    var matched := MatchedOf(cs, found);
    var groups := GroupsOf(matched);
    var covered := |groups| >= r.minGroups;
    Coverage(
      r.requirementId, covered, Map(FragmentKey, matched), set c | c in matched :: c.sourceId, groups,
      if matched == [] then Some(NoCandidateSatisfies) else if !covered then Some(TooFewGroups) else None, Closest(found))
  }

  method EvaluateRequirement(w: Matching, p: Profile, r: Requirement, cs: seq<Candidate>) returns (coverage: Coverage)
    ensures coverage == CoverageOf(r, cs, Assessments(w, p, r, cs))
  {
    hide Assess;
    var found: seq<Assessment> := [];
    for i := 0 to |cs|
      invariant |found| == i && forall k :: 0 <= k < i ==> found[k] == Assess(w, p, r, cs[k])
    {
      var a := AssessCandidate(w, p, r, cs[i]);
      found := found + [a];
    }
    assert found == Assessments(w, p, r, cs);
    coverage := CoverageOf(r, cs, found);
  }

  // ------------------------------------------------------------------ lineage

  // One source under two families or groups; one family under two groups.
  predicate SourceClash(a: Candidate, b: Candidate) {
    a.sourceId == b.sourceId && (a.sourceFamily != b.sourceFamily || a.group != b.group)
  }

  predicate FamilyClash(a: Candidate, b: Candidate) {
    a.sourceFamily == b.sourceFamily && a.group != b.group
  }

  // The first candidate that clashes with an earlier one decides the error.
  function Lineage(cs: seq<Candidate>): Option<GateError> {
    if cs == [] then None
    else
      var front, last := cs[..|cs| - 1], cs[|cs| - 1];
      if Lineage(front).Some? then Lineage(front)
      else if exists c :: c in front && SourceClash(c, last) then Some(SourceConflict)
      else if exists c :: c in front && FamilyClash(c, last) then Some(FamilyConflict)
      else None
  }

  ghost predicate Consistent(cs: seq<Candidate>) {
    forall a, b :: a in cs && b in cs ==> !SourceClash(a, b) && !FamilyClash(a, b)
  }

  // The two dictionaries, as the candidates seen so far determine them.
  ghost predicate Recorded(cs: seq<Candidate>, bySource: map<Id, (string, string)>, byFamily: map<string, string>) {
    (forall c :: c in cs ==> RecordedIn(c, bySource, byFamily)) &&
    (forall id :: id in bySource ==> exists c :: c in cs && c.sourceId == id) &&
    (forall f :: f in byFamily ==> exists c :: c in cs && c.sourceFamily == f)
  }

  ghost predicate RecordedIn(c: Candidate, bySource: map<Id, (string, string)>, byFamily: map<string, string>) {
    c.sourceId in bySource && c.sourceFamily in byFamily &&
    bySource[c.sourceId] == (c.sourceFamily, c.group) && byFamily[c.sourceFamily] == c.group
  }

  lemma RecordedStep(front: seq<Candidate>, c: Candidate, bySource: map<Id, (string, string)>, byFamily: map<string, string>)
    requires Recorded(front, bySource, byFamily)
    ensures c.sourceId in bySource && bySource[c.sourceId] != (c.sourceFamily, c.group) <==>
            exists d :: d in front && SourceClash(d, c)
    ensures c.sourceFamily in byFamily && byFamily[c.sourceFamily] != c.group <==>
            exists d :: d in front && FamilyClash(d, c)
  {
    if c.sourceId in bySource {
      var d :| d in front && d.sourceId == c.sourceId;
      assert SourceClash(d, c) <==> bySource[c.sourceId] != (c.sourceFamily, c.group);
    }
    if c.sourceFamily in byFamily {
      var d :| d in front && d.sourceFamily == c.sourceFamily;
      assert FamilyClash(d, c) <==> byFamily[c.sourceFamily] != c.group;
    }
  }

  lemma RecordedSnoc(front: seq<Candidate>, c: Candidate, bySource: map<Id, (string, string)>, byFamily: map<string, string>)
    requires Recorded(front, bySource, byFamily)
    requires c.sourceId in bySource ==> bySource[c.sourceId] == (c.sourceFamily, c.group)
    requires c.sourceFamily in byFamily ==> byFamily[c.sourceFamily] == c.group
    ensures Recorded(front + [c], bySource[c.sourceId := (c.sourceFamily, c.group)], byFamily[c.sourceFamily := c.group])
  {
    var bySource', byFamily' := bySource[c.sourceId := (c.sourceFamily, c.group)], byFamily[c.sourceFamily := c.group];
    assert c in front + [c];
    forall d | d in front + [c] ensures RecordedIn(d, bySource', byFamily') {
      if d != c { assert d in front; assert RecordedIn(d, bySource, byFamily); }
    }
    forall id | id in bySource' ensures exists d :: d in front + [c] && d.sourceId == id {
      if id != c.sourceId { var d :| d in front && d.sourceId == id; assert d in front + [c]; }
    }
    forall f | f in byFamily' ensures exists d :: d in front + [c] && d.sourceFamily == f {
      if f != c.sourceFamily { var d :| d in front && d.sourceFamily == f; assert d in front + [c]; }
    }
  }

  method ValidateCandidateLineage(cs: seq<Candidate>) returns (error: Option<GateError>)
    ensures error == Lineage(cs)
  {
    hide Recorded, SourceClash, FamilyClash;
    var bySource: map<Id, (string, string)> := map[];
    var byFamily: map<string, string> := map[];
    NothingRecorded();
    for i := 0 to |cs|
      invariant Lineage(cs[..i]) == None && Recorded(cs[..i], bySource, byFamily)
    {
      var c := cs[i];
      assert cs[..i + 1] == cs[..i] + [c];
      RecordedStep(cs[..i], c, bySource, byFamily);
      if c.sourceId in bySource && bySource[c.sourceId] != (c.sourceFamily, c.group) {
        LineagePrefix(cs, i + 1);
        return Some(SourceConflict);
      }
      if c.sourceFamily in byFamily && byFamily[c.sourceFamily] != c.group {
        LineagePrefix(cs, i + 1);
        return Some(FamilyConflict);
      }
      RecordedSnoc(cs[..i], c, bySource, byFamily);
      bySource := bySource[c.sourceId := (c.sourceFamily, c.group)];
      byFamily := byFamily[c.sourceFamily := c.group];
    }
    assert cs[..|cs|] == cs;
    return None;
  }

  lemma NothingRecorded()
    ensures Recorded([], map[], map[])
  {
  }

  lemma {:induction false} LineagePrefix(cs: seq<Candidate>, n: nat)
    requires n <= |cs| && Lineage(cs[..n]).Some?
    ensures Lineage(cs) == Lineage(cs[..n])
    decreases |cs|
  {
    if n < |cs| {
      assert cs[..|cs| - 1][..n] == cs[..n];
      LineagePrefix(cs[..|cs| - 1], n);
    } else {
      assert cs[..n] == cs;
    }
  }

  // ----------------------------------------------------------------- the gate

  function DecisionFor(expected: Answerability, coveredCount: nat, all: bool): Decision {
    if expected == NotInCorpus then (if all then GapChallenged else GapPreserved)
    else if all then Ready
    else if coveredCount > 0 then Partial
    else Insufficient
  }

  function CoveredIds(coverages: seq<Coverage>, covered: bool): seq<Id> {
    if coverages == [] then []
    else (if coverages[0].covered == covered then [coverages[0].requirementId] else []) + CoveredIds(coverages[1..], covered)
  }

  function CoveredGroups(coverages: seq<Coverage>): set<string> {
    set x, g | x in coverages && x.covered && g in x.matchedGroups :: g
  }

  function ResultOf(w: Matching, spec: Spec, ordered: seq<Candidate>, coverages: seq<Coverage>): GateResult {
    var covered, missing := CoveredIds(coverages, true), CoveredIds(coverages, false);
    var groups := CoveredGroups(coverages);
    var tooFew := |groups| < spec.minTotalGroups;
    GateResult(w.digest(ordered), DecisionFor(spec.expected, |covered|, missing == [] && !tooFew),
               covered, missing, groups, tooFew, coverages)
  }

  ghost function CoveragesOf(w: Matching, p: Profile, rs: seq<Requirement>, cs: seq<Candidate>): (r: seq<Coverage>)
    ensures |r| == |rs| && forall i :: 0 <= i < |rs| ==> r[i] == CoverageOf(rs[i], cs, Assessments(w, p, rs[i], cs))
  {
    seq(|rs|, i requires 0 <= i < |rs| => CoverageOf(rs[i], cs, Assessments(w, p, rs[i], cs)))
  }

  // Whether the gate accepts the candidates at all.
  function InputError(spec: Spec, cs: seq<Candidate>): Option<GateError> {
    if !UniqueBy(cs, FragmentKey) then Some(FragmentIdsRepeat)
    else if spec.profile == ProfileV1 then None
    else Lineage(cs)
  }

  ghost function Outcome(w: Matching, spec: Spec, cs: seq<Candidate>): Result<GateResult, GateError> {
    match InputError(spec, cs)
    case Some(e) => Err(e)
    case None =>
      var ordered := Sort(CandidateLeq, cs);
      Ok(ResultOf(w, spec, ordered, CoveragesOf(w, spec.profile, spec.requirements, ordered)))
  }

  method Evaluate(w: Matching, spec: Spec, cs: seq<Candidate>) returns (r: Result<GateResult, GateError>)
    ensures r == Outcome(w, spec, cs)
  {
    hide Lineage, CoverageOf, Assessments, ResultOf, Sort;
    if !UniqueBy(cs, FragmentKey) { return Err(FragmentIdsRepeat); }
    if spec.profile != ProfileV1 {
      var error := ValidateCandidateLineage(cs);
      if error.Some? { return Err(error.value); }
    }
    var ordered := Sort(CandidateLeq, cs);
    var coverages: seq<Coverage> := [];
    for i := 0 to |spec.requirements|
      invariant |coverages| == i
      invariant forall k :: 0 <= k < i ==>
        coverages[k] == CoverageOf(spec.requirements[k], ordered, Assessments(w, spec.profile, spec.requirements[k], ordered))
    {
      var coverage := EvaluateRequirement(w, spec.profile, spec.requirements[i], ordered);
      coverages := coverages + [coverage];
    }
    assert coverages == CoveragesOf(w, spec.profile, spec.requirements, ordered);
    return Ok(ResultOf(w, spec, ordered, coverages));
  }
}
