// The evidence gate does not depend on the order of its candidates, and more
// evidence never lowers its decision.

module EvidenceGateTheorems {
  import opened Common
  import opened Ordering
  import opened EvidenceGate

  // --------------------------------------------------------- what covering means

  lemma {:induction false} MatchedSatisfy(w: Matching, p: Profile, r: Requirement, cs: seq<Candidate>, found: seq<Assessment>)
    requires |found| == |cs| && forall i :: 0 <= i < |cs| ==> found[i] == Assess(w, p, r, cs[i])
    ensures forall c :: c in MatchedOf(cs, found) <==> c in cs && Satisfies(w, p, r, c)
  {
    hide Codes, Satisfies;
    if cs != [] {
      MatchedSatisfy(w, p, r, cs[1..], found[1..]);
      NoCodesExactly(w, p, r, cs[0]);
      assert found[0] == Assess(w, p, r, cs[0]);
      assert cs == [cs[0]] + cs[1..];
    }
  }

  // The independence groups behind a requirement.
  ghost function SatisfyingGroups(w: Matching, p: Profile, r: Requirement, cs: set<Candidate>): set<string> {
    set c | c in cs && Satisfies(w, p, r, c) :: c.group
  }

  // A requirement is covered exactly when fragments that each meet all of its
  // conditions come from enough independent groups; the order plays no part.
  lemma CoveredExactly(w: Matching, p: Profile, r: Requirement, cs: seq<Candidate>)
    ensures
      var coverage := CoverageOf(r, cs, Assessments(w, p, r, cs));
      coverage.matchedGroups == SatisfyingGroups(w, p, r, Elems(cs)) &&
      (coverage.covered <==> |SatisfyingGroups(w, p, r, Elems(cs))| >= r.minGroups) &&
      (coverage.missing == Some(NoCandidateSatisfies) <==> forall c :: c in cs ==> !Satisfies(w, p, r, c)) &&
      (coverage.missing == None ==> coverage.covered) && (coverage.covered && coverage.matchedGroups != {} ==> coverage.missing == None)
  {
    var found := Assessments(w, p, r, cs);
    MatchedSatisfy(w, p, r, cs, found);
    var matched := MatchedOf(cs, found);
    hide Satisfies, Assess;
    assert GroupsOf(matched) == SatisfyingGroups(w, p, r, Elems(cs));
    if matched != [] { assert matched[0] in matched; }
  }

  // The closest misses are rejected candidates, at most three, and no rejected
  // candidate is closer than one that is listed.
  lemma ClosestAreClosest(found: seq<Assessment>)
    ensures
      var closest := Closest(found);
      |closest| <= 3 && Sorted(CloserLeq, closest) &&
      (forall a :: a in closest ==> a in found && a.codes != []) &&
      (forall a, b :: a in closest && b in found && b.codes != [] && b !in closest ==> CloserLeq(a, b)) &&
      ((exists b :: b in found && b.codes != [] && b !in closest) ==> |closest| == 3)
  {
    var rejected := Rejected(found);
    var sorted := Sort(CloserLeq, rejected);
    StrLeqIsTotalPreorder();
    CloserLeqIsTotalPreorder();
    SortCorrect(CloserLeq, rejected);
    SameElements(rejected, sorted);
    var closest := Closest(found);
    hide CloserLeq, Sort;
    assert forall k :: 0 <= k < |closest| ==> sorted[k] == closest[k] && sorted[k] in closest;
    forall a | a in closest ensures a in found && a.codes != [] { assert a in Elems(sorted); assert a in rejected; }
    forall b | b in found && b.codes != [] && b !in closest
      ensures |closest| == 3 && forall a :: a in closest ==> CloserLeq(a, b)
    {
      assert b in Elems(rejected) && b in Elems(sorted);
      var j :| 0 <= j < |sorted| && sorted[j] == b;
      assert j >= |closest|;
    }
  }

  lemma CloserLeqIsTotalPreorder()
    ensures TotalPreorder(CloserLeq)
  {
    hide StrLeq;
    StrLeqIsTotalPreorder();
  }

  // ------------------------------------------------------------------ lineage

  // Two fragments of different sources that share a family under two groups.
  predicate PureFamilyClash(a: Candidate, b: Candidate) {
    FamilyClash(a, b) && a.sourceId != b.sourceId
  }

  ghost predicate SomeSourceClash(cs: seq<Candidate>) {
    exists a, b :: a in cs && b in cs && SourceClash(a, b)
  }

  ghost predicate SomePureFamilyClash(cs: seq<Candidate>) {
    exists a, b :: a in cs && b in cs && PureFamilyClash(a, b)
  }

  lemma {:induction false} LineageCauses(cs: seq<Candidate>)
    ensures Lineage(cs) == None <==> Consistent(cs)
    ensures Lineage(cs) == Some(SourceConflict) ==> SomeSourceClash(cs)
    ensures Lineage(cs) == Some(FamilyConflict) ==> SomePureFamilyClash(cs)
    ensures Lineage(cs) != Some(FragmentIdsRepeat)
  {
    if cs != [] {
      var front, last := cs[..|cs| - 1], cs[|cs| - 1];
      assert cs == front + [last];
      LineageCauses(front);
    }
  }

  // The one-pass check accepts exactly the pairwise consistent lists.
  lemma LineageAcceptsConsistent(cs: seq<Candidate>)
    ensures Lineage(cs) == None <==> Consistent(cs)
  {
    LineageCauses(cs);
  }

  lemma ClashesByElements(a: seq<Candidate>, b: seq<Candidate>)
    requires Elems(a) == Elems(b)
    ensures Consistent(a) <==> Consistent(b)
    ensures SomeSourceClash(a) <==> SomeSourceClash(b)
    ensures SomePureFamilyClash(a) <==> SomePureFamilyClash(b)
  {
    hide SourceClash, FamilyClash, PureFamilyClash;
    assert forall c :: c in a <==> c in Elems(a);
    assert forall c :: c in b <==> c in Elems(b);
  }

  lemma TakeOut(cs: seq<Candidate>, x: Candidate) returns (rest: seq<Candidate>)
    requires x in cs
    ensures multiset(cs) == multiset([x] + rest)
    ensures forall y :: y in cs && y != x ==> y in rest
  {
    var i :| 0 <= i < |cs| && cs[i] == x;
    rest := cs[..i] + cs[i + 1..];
    assert cs == cs[..i] + [x] + cs[i + 1..];
  }

  // A clashing pair brought to the front decides the error.
  lemma PairFirst(cs: seq<Candidate>, x: Candidate, y: Candidate) returns (b: seq<Candidate>)
    requires x in cs && y in cs && x != y
    ensures multiset(b) == multiset(cs) && |b| >= 2 && b[0] == x && b[1] == y
  {
    var rest := TakeOut(cs, x);
    var others := TakeOut(rest, y);
    b := [x] + ([y] + others);
  }

  lemma PairDecides(b: seq<Candidate>)
    requires |b| >= 2 && (SourceClash(b[0], b[1]) || FamilyClash(b[0], b[1]))
    ensures Lineage(b) == Some(if SourceClash(b[0], b[1]) then SourceConflict else FamilyConflict)
  {
    assert b[..2][..1] == [b[0]] && [b[0]][..0] == [];
    assert Lineage([b[0]]) == None;
    assert b[0] in [b[0]];
    LineagePrefix(b, 2);
  }

  // ------------------------------------------------------------- order

  lemma CandidateOrder(cs: seq<Candidate>)
    requires UniqueBy(cs, FragmentKey)
    ensures TotalPreorder(CandidateLeq) && Keyed(CandidateLeq, cs)
  {
    StrLeqIsTotalPreorder();
    assert TotalPreorder(CandidateLeq) by { hide StrLeq; }
    forall x, y | x in cs && y in cs && CandidateLeq(x, y) && CandidateLeq(y, x) ensures x == y {
      StrLeqAntisymmetric(x.fragmentId, y.fragmentId);
      UniqueByIds(cs, FragmentKey, x, y);
    }
  }

  lemma AcceptanceIgnoresOrder(spec: Spec, a: seq<Candidate>, b: seq<Candidate>)
    requires multiset(a) == multiset(b)
    ensures UniqueBy(a, FragmentKey) <==> UniqueBy(b, FragmentKey)
    ensures InputError(spec, a) == None <==> InputError(spec, b) == None
  {
    MapPermutes(FragmentKey, a, b);
    DistinctByMultiset(Map(FragmentKey, a), Map(FragmentKey, b));
    SameElements(a, b);
    ClashesByElements(a, b);
    LineageCauses(a);
    LineageCauses(b);
  }

  // Permuting accepted candidates leaves the whole result unchanged.
  lemma ResultIgnoresOrder(w: Matching, spec: Spec, a: seq<Candidate>, b: seq<Candidate>)
    requires multiset(a) == multiset(b) && InputError(spec, a) == None
    ensures Outcome(w, spec, a) == Outcome(w, spec, b)
  {
    hide Sort, CandidateLeq, Lineage, UniqueBy;
    AcceptanceIgnoresOrder(spec, a, b);
    CandidateOrder(a);
    SortCanonical(CandidateLeq, a, b);
  }

  // Which error is raised can depend on the order: with both kinds of clash
  // present, the first one met decides.
  ghost predicate ErrorDependsOnOrder(spec: Spec, cs: seq<Candidate>) {
    UniqueBy(cs, FragmentKey) && spec.profile != ProfileV1 && SomeSourceClash(cs) && SomePureFamilyClash(cs)
  }

  lemma OtherOrderOtherError(w: Matching, spec: Spec, cs: seq<Candidate>) returns (b: seq<Candidate>)
    requires ErrorDependsOnOrder(spec, cs)
    ensures multiset(b) == multiset(cs) && Outcome(w, spec, b) != Outcome(w, spec, cs)
  {
    hide Lineage, UniqueBy;
    LineageCauses(cs);
    if Lineage(cs) == Some(SourceConflict) {
      var x, y :| x in cs && y in cs && PureFamilyClash(x, y);
      b := PairFirst(cs, x, y);
      PairDecides(b);
    } else {
      var x, y :| x in cs && y in cs && SourceClash(x, y);
      b := PairFirst(cs, x, y);
      PairDecides(b);
    }
    AcceptanceIgnoresOrder(spec, cs, b);
  }

  // The outcome, errors included, is independent of the order exactly when the
  // candidates do not hold both kinds of clash.
  lemma OutcomeIgnoresOrderExactly(w: Matching, spec: Spec, cs: seq<Candidate>)
    ensures (forall b :: multiset(b) == multiset(cs) ==> Outcome(w, spec, b) == Outcome(w, spec, cs))
       <==> !ErrorDependsOnOrder(spec, cs)
  {
    hide Outcome;
    if ErrorDependsOnOrder(spec, cs) {
      var b := OtherOrderOtherError(w, spec, cs);
      assert multiset(b) == multiset(cs);
    } else {
      forall b | multiset(b) == multiset(cs) ensures Outcome(w, spec, b) == Outcome(w, spec, cs) {
        SameOutcome(w, spec, cs, b);
      }
    }
  }

  lemma SameOutcome(w: Matching, spec: Spec, a: seq<Candidate>, b: seq<Candidate>)
    requires multiset(a) == multiset(b) && !ErrorDependsOnOrder(spec, a)
    ensures Outcome(w, spec, a) == Outcome(w, spec, b)
  {
    hide Sort, Lineage, UniqueBy, SomeSourceClash, SomePureFamilyClash;
    AcceptanceIgnoresOrder(spec, a, b);
    if InputError(spec, a) == None {
      ResultIgnoresOrder(w, spec, a, b);
    } else {
      SameElements(a, b);
      ClashesByElements(a, b);
      LineageCauses(a);
      LineageCauses(b);
      ErrorKinds(a);
      ErrorKinds(b);
      assert InputError(spec, a) == InputError(spec, b);
    }
  }

  lemma ErrorKinds(cs: seq<Candidate>)
    ensures Lineage(cs) == None || Lineage(cs) == Some(SourceConflict) || Lineage(cs) == Some(FamilyConflict)
  {
    LineageCauses(cs);
    if Lineage(cs).Some? {
      match Lineage(cs).value case FragmentIdsRepeat => case SourceConflict => case FamilyConflict =>
    }
  }

  function Sample(fragment: Id, source: Id, family: string, group: string): Candidate {
    Candidate(1, fragment, source, "text", "book", family, "primary", group, [])
  }

  // Three fragments whose error message changes when the last two trade places.
  lemma OrderChangesTheError(w: Matching, spec: Spec)
    requires spec.profile != ProfileV1
    ensures var a, b, c := Sample("fragment_a", "source_x", "family_f", "group_g"),
                           Sample("fragment_b", "source_x", "family_h", "group_g"),
                           Sample("fragment_c", "source_y", "family_f", "group_k");
            Outcome(w, spec, [a, b, c]) == Err(SourceConflict) && Outcome(w, spec, [a, c, b]) == Err(FamilyConflict)
  {
    var a, b, c := Sample("fragment_a", "source_x", "family_f", "group_g"),
                   Sample("fragment_b", "source_x", "family_h", "group_g"),
                   Sample("fragment_c", "source_y", "family_f", "group_k");
    PairDecides([a, b, c]);
    PairDecides([a, c, b]);
    DistinctIndices(["fragment_a", "fragment_b", "fragment_c"]);
    DistinctIndices(["fragment_a", "fragment_c", "fragment_b"]);
    assert Map(FragmentKey, [a, b, c]) == ["fragment_a", "fragment_b", "fragment_c"];
    assert Map(FragmentKey, [a, c, b]) == ["fragment_a", "fragment_c", "fragment_b"];
    assert "fragment_a"[9] == 'a' && "fragment_b"[9] == 'b' && "fragment_c"[9] == 'c';
  }

  // ------------------------------------------------------------ monotonicity

  function Level(d: Decision): nat {
    match d
    case Insufficient => 0 case Partial => 1 case Ready => 2
    case GapPreserved => 0 case GapChallenged => 1
  }

  ghost predicate Grown(a: seq<Coverage>, b: seq<Coverage>) {
    |a| == |b| &&
    forall i :: 0 <= i < |a| ==>
      a[i].requirementId == b[i].requirementId && a[i].matchedGroups <= b[i].matchedGroups && (a[i].covered ==> b[i].covered)
  }

  lemma MoreGroups(w: Matching, p: Profile, r: Requirement, few: set<Candidate>, many: set<Candidate>)
    requires few <= many
    ensures SatisfyingGroups(w, p, r, few) <= SatisfyingGroups(w, p, r, many)
  {
    hide Satisfies;
  }

  lemma CoverageGrows(w: Matching, p: Profile, rs: seq<Requirement>, a: seq<Candidate>, b: seq<Candidate>)
    requires Elems(a) <= Elems(b)
    ensures Grown(CoveragesOf(w, p, rs, a), CoveragesOf(w, p, rs, b))
  {
    hide SatisfyingGroups, Elems;
    forall i | 0 <= i < |rs|
      ensures var x, y := CoveragesOf(w, p, rs, a)[i], CoveragesOf(w, p, rs, b)[i];
              x.requirementId == y.requirementId && x.matchedGroups <= y.matchedGroups && (x.covered ==> y.covered)
    {
      CoveredExactly(w, p, rs[i], a);
      CoveredExactly(w, p, rs[i], b);
      MoreGroups(w, p, rs[i], Elems(a), Elems(b));
      SubsetCount(SatisfyingGroups(w, p, rs[i], Elems(a)), SatisfyingGroups(w, p, rs[i], Elems(b)));
    }
  }

  lemma {:induction false} IdsGrow(a: seq<Coverage>, b: seq<Coverage>)
    requires Grown(a, b)
    ensures Elems(CoveredIds(a, true)) <= Elems(CoveredIds(b, true))
    ensures |CoveredIds(a, true)| <= |CoveredIds(b, true)| && |CoveredIds(b, false)| <= |CoveredIds(a, false)|
  {
    if a != [] {
      IdsGrow(a[1..], b[1..]);
      var x, y := CoveredIds(a[1..], true), CoveredIds(b[1..], true);
      ElemsConcat(if a[0].covered then [a[0].requirementId] else [], x);
      ElemsConcat(if b[0].covered then [b[0].requirementId] else [], y);
    }
  }

  lemma GroupsGrow(a: seq<Coverage>, b: seq<Coverage>)
    requires Grown(a, b)
    ensures CoveredGroups(a) <= CoveredGroups(b)
  {
    forall g | g in CoveredGroups(a) ensures g in CoveredGroups(b) {
      var x :| x in a && x.covered && g in x.matchedGroups;
      var i :| 0 <= i < |a| && a[i] == x;
      assert b[i] in b && b[i].covered && g in b[i].matchedGroups;
    }
  }

  lemma ResultGrows(w: Matching, spec: Spec, s: seq<Candidate>, t: seq<Candidate>, a: seq<Coverage>, b: seq<Coverage>)
    requires Grown(a, b)
    ensures Elems(ResultOf(w, spec, s, a).coveredIds) <= Elems(ResultOf(w, spec, t, b).coveredIds)
    ensures Level(ResultOf(w, spec, s, a).decision) <= Level(ResultOf(w, spec, t, b).decision)
    ensures ResultOf(w, spec, s, a).matchedGroups <= ResultOf(w, spec, t, b).matchedGroups
  {
    hide Grown, CoveredIds, CoveredGroups;
    IdsGrow(a, b);
    GroupsGrow(a, b);
    SubsetCount(CoveredGroups(a), CoveredGroups(b));
  }

  // More candidates never uncover a requirement and never lower the decision.
  lemma MoreEvidenceNeverLowers(w: Matching, spec: Spec, a: seq<Candidate>, b: seq<Candidate>)
    requires Elems(a) <= Elems(b)
    requires InputError(spec, a) == None && InputError(spec, b) == None
    ensures
      var few, many := Outcome(w, spec, a), Outcome(w, spec, b);
      few.Ok? && many.Ok? && Elems(few.value.coveredIds) <= Elems(many.value.coveredIds) &&
      few.value.matchedGroups <= many.value.matchedGroups && Level(few.value.decision) <= Level(many.value.decision) &&
      Grown(few.value.coverages, many.value.coverages)
  {
    hide Grown, CoverageOf, Assessments, Lineage, InputError, CandidateLeq, ResultOf, Level;
    var s, t := Sort(CandidateLeq, a), Sort(CandidateLeq, b);
    assert Elems(s) == Elems(a) && Elems(t) == Elems(b) by {
      CandidatesSorted(a);
      CandidatesSorted(b);
    }
    var x, y := CoveragesOf(w, spec.profile, spec.requirements, s), CoveragesOf(w, spec.profile, spec.requirements, t);
    CoverageGrows(w, spec.profile, spec.requirements, s, t);
    ResultGrows(w, spec, s, t, x, y);
    ResultCoverages(w, spec, s, x);
    ResultCoverages(w, spec, t, y);
  }

  lemma ResultCoverages(w: Matching, spec: Spec, s: seq<Candidate>, x: seq<Coverage>)
    ensures ResultOf(w, spec, s, x).coverages == x
  {
  }

  lemma CandidatesSorted(cs: seq<Candidate>)
    ensures Elems(Sort(CandidateLeq, cs)) == Elems(cs)
  {
    StrLeqIsTotalPreorder();
    assert TotalPreorder(CandidateLeq) by { hide StrLeq; }
    SortCorrect(CandidateLeq, cs);
    SameElements(cs, Sort(CandidateLeq, cs));
  }

  // A new fragment that agrees with the lineage on record is accepted, and the
  // decision stands or rises.
  lemma AddingAFragmentNeverLowers(w: Matching, spec: Spec, cs: seq<Candidate>, c: Candidate)
    requires InputError(spec, cs) == None && c.fragmentId !in Map(FragmentKey, cs)
    requires forall d :: d in cs ==> !SourceClash(d, c) && !FamilyClash(d, c)
    ensures
      var few, many := Outcome(w, spec, cs), Outcome(w, spec, cs + [c]);
      few.Ok? && many.Ok? && Elems(few.value.coveredIds) <= Elems(many.value.coveredIds) &&
      Level(few.value.decision) <= Level(many.value.decision)
  {
    assert InputError(spec, cs + [c]) == None by {
      MapConcat(FragmentKey, cs, [c]);
      assert Map(FragmentKey, cs + [c]) == Map(FragmentKey, cs) + [c.fragmentId];
      DistinctSnoc(Map(FragmentKey, cs), c.fragmentId);
      hide SourceClash, FamilyClash;
      assert (cs + [c])[..|cs|] == cs;
    }
    hide InputError, Outcome, Level;
    ElemsConcat(cs, [c]);
    MoreEvidenceNeverLowers(w, spec, cs, cs + [c]);
  }
}
