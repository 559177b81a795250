// The gate's result read off candidates and requirements: which inputs it accepts,
// which requirements it calls covered, and which decision follows.

module EvidenceDecision {
  import opened Common
  import opened Ordering
  import opened LiteralSearch
  import opened EvidenceGate
  import opened EvidenceGateTheorems

  // ------------------------------------------------------------- selections

  // `picked` lists the positions that `wanted` names, in ascending order.
  ghost predicate Picks(picked: seq<nat>, n: nat, wanted: set<nat>) {
    (forall k :: 0 <= k < |picked| ==> picked[k] < n && picked[k] in wanted) &&
    (forall k, l :: 0 <= k < l < |picked| ==> picked[k] < picked[l]) &&
    forall i: nat :: i < n && i in wanted ==> i in picked
  }

  // `ids` are the IDs of the wanted requirements, in the order of the spec.
  ghost predicate IdsOf(ids: seq<Id>, rs: seq<Requirement>, wanted: set<nat>) {
    exists picked :: Picks(picked, |rs|, wanted) && NamesThem(ids, rs, picked)
  }

  predicate NamesThem(ids: seq<Id>, rs: seq<Requirement>, picked: seq<nat>) {
    |ids| == |picked| && forall k :: 0 <= k < |picked| ==> picked[k] < |rs| && ids[k] == rs[picked[k]].requirementId
  }

  // ---------------------------------------------------------------- coverage

  // Fragments from enough independent groups meet every condition.
  ghost predicate IsMet(w: Matching, p: Profile, r: Requirement, cs: seq<Candidate>) {
    |SatisfyingGroups(w, p, r, Elems(cs))| >= r.minGroups
  }

  ghost function MetAt(w: Matching, spec: Spec, cs: seq<Candidate>): set<nat> {
    set i: nat | i < |spec.requirements| && IsMet(w, spec.profile, spec.requirements[i], cs)
  }

  // The groups behind the requirements that are met.
  ghost predicate GroupCounts(w: Matching, spec: Spec, cs: seq<Candidate>, g: string) {
    exists r, c :: r in spec.requirements && IsMet(w, spec.profile, r, cs) && c in cs &&
      Satisfies(w, spec.profile, r, c) && c.group == g
  }

  ghost function CountedGroups(w: Matching, spec: Spec, cs: seq<Candidate>): (groups: set<string>)
    ensures forall g :: g in groups <==> GroupCounts(w, spec, cs, g)
  {
    var groups := set r, c | r in spec.requirements && c in cs && IsMet(w, spec.profile, r, cs) && Satisfies(w, spec.profile, r, c) :: c.group;
    hide IsMet, Satisfies;
    assert forall g :: g in groups ==> GroupCounts(w, spec, cs, g);
    assert forall g :: GroupCounts(w, spec, cs, g) ==> g in groups;
    groups
  }

  lemma SameSet(a: seq<Candidate>)
    ensures Elems(Sort(CandidateLeq, a)) == Elems(a)
  {
    CandidatesSorted(a);
  }

  lemma CoverageAt(w: Matching, p: Profile, rs: seq<Requirement>, cs: seq<Candidate>, i: nat)
    requires i < |rs|
    ensures
      var ordered := Sort(CandidateLeq, cs);
      var x := CoveragesOf(w, p, rs, ordered)[i];
      x.requirementId == rs[i].requirementId && (x.covered <==> IsMet(w, p, rs[i], cs)) &&
      x.matchedGroups == SatisfyingGroups(w, p, rs[i], Elems(cs))
  {
    hide Satisfies, Sort, Assessments, MatchedOf, Closest;
    CandidatesSorted(cs);
    CoveredExactly(w, p, rs[i], Sort(CandidateLeq, cs));
  }

  lemma GroupsAreCounted(w: Matching, spec: Spec, cs: seq<Candidate>)
    ensures CoveredGroups(CoveragesOf(w, spec.profile, spec.requirements, Sort(CandidateLeq, cs))) == CountedGroups(w, spec, cs)
  {
    var rs, xs := spec.requirements, CoveragesOf(w, spec.profile, spec.requirements, Sort(CandidateLeq, cs));
    hide Satisfies, Sort, CoverageOf, IsMet;
    forall i | 0 <= i < |rs|
      ensures (xs[i].covered <==> IsMet(w, spec.profile, rs[i], cs)) && xs[i].matchedGroups == SatisfyingGroups(w, spec.profile, rs[i], Elems(cs))
    {
      CoverageAt(w, spec.profile, rs, cs, i);
    }
    hide CoveragesOf;
    forall g | g in CoveredGroups(xs) ensures GroupCounts(w, spec, cs, g) {
      var x :| x in xs && x.covered && g in x.matchedGroups;
      var i :| 0 <= i < |xs| && xs[i] == x;
      assert rs[i] in rs;
    }
    forall g | GroupCounts(w, spec, cs, g) ensures g in CoveredGroups(xs) {
      var r, c :| r in rs && IsMet(w, spec.profile, r, cs) && c in cs && Satisfies(w, spec.profile, r, c) && c.group == g;
      var i :| 0 <= i < |rs| && rs[i] == r;
      assert c in Elems(cs) && g in xs[i].matchedGroups && xs[i] in xs;
    }
  }

  // ------------------------------------------------------------ listed IDs

  function Shifted(picked: seq<nat>, d: nat): (r: seq<nat>)
    ensures |r| == |picked| && forall k :: 0 <= k < |picked| ==> r[k] == picked[k] + d
  {
    seq(|picked|, k requires 0 <= k < |picked| => picked[k] + d)
  }

  predicate Listed(ids: seq<Id>, xs: seq<Coverage>, picked: seq<nat>) {
    |ids| == |picked| && forall k :: 0 <= k < |picked| ==> picked[k] < |xs| && ids[k] == xs[picked[k]].requirementId
  }

  function CoveredAt(xs: seq<Coverage>, covered: bool): set<nat> {
    set i: nat | i < |xs| && xs[i].covered == covered
  }

  // Positions behind a first element move up by one.
  lemma PicksMove(rest: seq<nat>, n: nat, wanted: set<nat>, more: set<nat>)
    requires Picks(rest, n, wanted) && forall i: nat :: i in more <==> i > 0 && i - 1 in wanted
    ensures Picks(Shifted(rest, 1), n + 1, more)
  {
    var picked := Shifted(rest, 1);
    forall i: nat | i < n + 1 && i in more ensures i in picked {
      var k :| 0 <= k < |rest| && rest[k] == i - 1;
      assert picked[k] == i;
    }
  }

  lemma PicksFirst(picked: seq<nat>, n: nat, wanted: set<nat>)
    requires Picks(picked, n, wanted) && 0 !in wanted && 0 < n
    ensures Picks([0] + picked, n, wanted + {0})
  {
    var all := [0] + picked;
    forall k | 0 <= k < |picked| ensures picked[k] > 0 { assert picked[k] in wanted; }
    forall i: nat | i < n && i in wanted + {0} ensures i in all {
      if i == 0 { assert all[0] == 0; } else { assert i in picked; }
    }
  }

  lemma PicksCons(xs: seq<Coverage>, covered: bool, rest: seq<nat>)
    requires xs != [] && Picks(rest, |xs| - 1, CoveredAt(xs[1..], covered))
    ensures
      if xs[0].covered == covered then Picks([0] + Shifted(rest, 1), |xs|, CoveredAt(xs, covered))
      else Picks(Shifted(rest, 1), |xs|, CoveredAt(xs, covered))
  {
    var wanted := CoveredAt(xs[1..], covered);
    var more := CoveredBehind(xs, covered);
    BehindFirst(xs, covered);
    hide *;
    PicksMove(rest, |xs| - 1, wanted, more);
    if xs[0].covered == covered { PicksFirst(Shifted(rest, 1), |xs|, more); }
    assert more + {} == more;
  }

  function CoveredBehind(xs: seq<Coverage>, covered: bool): set<nat> {
    set i: nat | 0 < i < |xs| && xs[i].covered == covered
  }

  lemma BehindFirst(xs: seq<Coverage>, covered: bool)
    requires xs != []
    ensures 0 !in CoveredBehind(xs, covered)
    ensures forall i: nat :: i in CoveredBehind(xs, covered) <==> i > 0 && i - 1 in CoveredAt(xs[1..], covered)
    ensures CoveredAt(xs, covered) == CoveredBehind(xs, covered) + (if xs[0].covered == covered then {0} else {})
  {
    forall i: nat ensures i in CoveredBehind(xs, covered) <==> i > 0 && i - 1 in CoveredAt(xs[1..], covered) {
      if 0 < i < |xs| { assert xs[1..][i - 1] == xs[i]; }
    }
  }

  lemma ListedMove(ids: seq<Id>, xs: seq<Coverage>, rest: seq<nat>)
    requires xs != [] && Listed(ids, xs[1..], rest)
    ensures Listed(ids, xs, Shifted(rest, 1))
  {
    forall k | 0 <= k < |rest| ensures xs[1..][rest[k]] == xs[rest[k] + 1] {}
  }

  lemma ListedCons(xs: seq<Coverage>, covered: bool, rest: seq<nat>)
    requires xs != [] && Listed(CoveredIds(xs[1..], covered), xs[1..], rest)
    ensures
      if xs[0].covered == covered then Listed(CoveredIds(xs, covered), xs, [0] + Shifted(rest, 1))
      else Listed(CoveredIds(xs, covered), xs, Shifted(rest, 1))
  {
    var ids := CoveredIds(xs[1..], covered);
    ListedMove(ids, xs, rest);
    if xs[0].covered == covered {
      assert CoveredIds(xs, covered) == [xs[0].requirementId] + ids;
    } else {
      assert CoveredIds(xs, covered) == ids;
    }
  }

  lemma {:induction false} IdsListed(xs: seq<Coverage>, covered: bool) returns (picked: seq<nat>)
    ensures Picks(picked, |xs|, CoveredAt(xs, covered)) && Listed(CoveredIds(xs, covered), xs, picked)
  {
    if xs == [] {
      picked := [];
    } else {
      hide *;
      var rest := IdsListed(xs[1..], covered);
      PicksCons(xs, covered, rest);
      ListedCons(xs, covered, rest);
      picked := if xs[0].covered == covered then [0] + Shifted(rest, 1) else Shifted(rest, 1);
    }
  }

  lemma IdsExactly(w: Matching, spec: Spec, cs: seq<Candidate>, covered: bool)
    ensures
      var rs := spec.requirements;
      var xs := CoveragesOf(w, spec.profile, rs, Sort(CandidateLeq, cs));
      IdsOf(CoveredIds(xs, covered), rs, set i: nat | i < |rs| && (i in MetAt(w, spec, cs)) == covered)
  {
    var rs := spec.requirements;
    var xs := CoveragesOf(w, spec.profile, rs, Sort(CandidateLeq, cs));
    hide CoverageOf, Sort, IsMet, Satisfies;
    forall i | 0 <= i < |rs|
      ensures xs[i].requirementId == rs[i].requirementId && (xs[i].covered <==> IsMet(w, spec.profile, rs[i], cs))
    {
      CoverageAt(w, spec.profile, rs, cs, i);
    }
    hide CoveragesOf, Picks;
    var picked := IdsListed(xs, covered);
    assert CoveredAt(xs, covered) == set i: nat | i < |rs| && (i in MetAt(w, spec, cs)) == covered;
    assert NamesThem(CoveredIds(xs, covered), rs, picked);
  }

  lemma NoneListed(ids: seq<Id>, rs: seq<Requirement>, wanted: set<nat>)
    requires IdsOf(ids, rs, wanted)
    ensures ids == [] <==> forall i: nat :: i < |rs| ==> i !in wanted
  {
    var picked :| Picks(picked, |rs|, wanted) && NamesThem(ids, rs, picked);
    if ids != [] { assert picked[0] in wanted; }
  }

  // ---------------------------------------------------------------- decisions

  // All requirements are met, by enough groups in all.
  ghost predicate Complete(w: Matching, spec: Spec, cs: seq<Candidate>) {
    (forall r :: r in spec.requirements ==> |SatisfyingGroups(w, spec.profile, r, Elems(cs))| >= r.minGroups) &&
    |CountedGroups(w, spec, cs)| >= spec.minTotalGroups
  }

  ghost predicate SomeMet(w: Matching, spec: Spec, cs: seq<Candidate>) {
    exists r :: r in spec.requirements && |SatisfyingGroups(w, spec.profile, r, Elems(cs))| >= r.minGroups
  }

  // What an accepted list of candidates leads to.
  ghost predicate Decided(spec: Spec, d: Decision, complete: bool, some: bool) {
    (d == Ready <==> spec.expected == Answerable && complete) &&
    (d == Partial <==> spec.expected == Answerable && !complete && some) &&
    (d == Insufficient <==> spec.expected == Answerable && !complete && !some) &&
    (d == GapChallenged <==> spec.expected == NotInCorpus && complete) &&
    (d == GapPreserved <==> spec.expected == NotInCorpus && !complete)
  }

  // The decision and the listed requirements, for every accepted list: an
  // answerable question is READY when every requirement is met by its own number of
  // groups and all together by the total, PARTIAL when only some requirement is met,
  // INSUFFICIENT when none is; a question outside the corpus has its gap challenged
  // or preserved.
  lemma DecisionExactly(w: Matching, spec: Spec, cs: seq<Candidate>)
    requires Outcome(w, spec, cs).Ok?
    ensures
      var g := Outcome(w, spec, cs).value;
      Decided(spec, g.decision, Complete(w, spec, cs), SomeMet(w, spec, cs)) &&
      IdsOf(g.coveredIds, spec.requirements, MetAt(w, spec, cs)) &&
      IdsOf(g.missingIds, spec.requirements, set i: nat | i < |spec.requirements| && i !in MetAt(w, spec, cs)) &&
      g.matchedGroups == CountedGroups(w, spec, cs) &&
      (g.tooFewGroups <==> |CountedGroups(w, spec, cs)| < spec.minTotalGroups)
  {
    hide *;
    ResultIs(w, spec, cs);
    GroupsAreCounted(w, spec, cs);
    IdsMet(w, spec, cs);
    CompleteByLists(w, spec, cs);
  }

  lemma IdsMet(w: Matching, spec: Spec, cs: seq<Candidate>)
    ensures
      var rs := spec.requirements;
      var xs := CoveragesOf(w, spec.profile, rs, Sort(CandidateLeq, cs));
      IdsOf(CoveredIds(xs, true), rs, MetAt(w, spec, cs)) &&
      IdsOf(CoveredIds(xs, false), rs, set i: nat | i < |rs| && i !in MetAt(w, spec, cs))
  {
    var rs, met := spec.requirements, MetAt(w, spec, cs);
    assert (set i: nat | i < |rs| && (i in met) == true) == met;
    assert (set i: nat | i < |rs| && (i in met) == false) == set i: nat | i < |rs| && i !in met;
    hide *;
    IdsExactly(w, spec, cs, true);
    IdsExactly(w, spec, cs, false);
  }

  lemma CompleteByLists(w: Matching, spec: Spec, cs: seq<Candidate>)
    ensures
      var xs := CoveragesOf(w, spec.profile, spec.requirements, Sort(CandidateLeq, cs));
      (Complete(w, spec, cs) <==> CoveredIds(xs, false) == [] && |CountedGroups(w, spec, cs)| >= spec.minTotalGroups) &&
      (SomeMet(w, spec, cs) <==> CoveredIds(xs, true) != [])
  {
    var rs, met := spec.requirements, MetAt(w, spec, cs);
    var xs := CoveragesOf(w, spec.profile, rs, Sort(CandidateLeq, cs));
    AllMet(w, spec, cs);
    hide *;
    MetByRecord(w, spec, cs);
    IdsMet(w, spec, cs);
    NoneListed(CoveredIds(xs, true), rs, met);
    var unmet := set i: nat | i < |rs| && i !in met;
    NoneListed(CoveredIds(xs, false), rs, unmet);
    assert forall i: nat :: i < |rs| ==> (i in met <==> i !in unmet);
  }

  lemma AllMet(w: Matching, spec: Spec, cs: seq<Candidate>)
    ensures Complete(w, spec, cs) <==>
            (forall r :: r in spec.requirements ==> IsMet(w, spec.profile, r, cs)) && |CountedGroups(w, spec, cs)| >= spec.minTotalGroups
  {
    hide SatisfyingGroups, CountedGroups;
  }

  lemma MetByRecord(w: Matching, spec: Spec, cs: seq<Candidate>)
    ensures SomeMet(w, spec, cs) <==> exists i: nat :: i < |spec.requirements| && i in MetAt(w, spec, cs)
    ensures (forall r :: r in spec.requirements ==> IsMet(w, spec.profile, r, cs)) <==>
            forall i: nat :: i < |spec.requirements| ==> i in MetAt(w, spec, cs)
  {
    var rs := spec.requirements;
    hide SatisfyingGroups;
    if r :| r in rs && IsMet(w, spec.profile, r, cs) {
      var i :| 0 <= i < |rs| && rs[i] == r;
      assert i in MetAt(w, spec, cs);
    }
    if forall i: nat :: i < |rs| ==> i in MetAt(w, spec, cs) {
      forall r | r in rs ensures IsMet(w, spec.profile, r, cs) {
        var i :| 0 <= i < |rs| && rs[i] == r;
        assert i in MetAt(w, spec, cs);
      }
    }
    forall i: nat | i < |rs| ensures rs[i] in rs {}
  }

  lemma ResultIs(w: Matching, spec: Spec, cs: seq<Candidate>)
    requires Outcome(w, spec, cs).Ok?
    ensures
      var xs := CoveragesOf(w, spec.profile, spec.requirements, Sort(CandidateLeq, cs));
      var g := Outcome(w, spec, cs).value;
      g.coveredIds == CoveredIds(xs, true) && g.missingIds == CoveredIds(xs, false) &&
      g.matchedGroups == CoveredGroups(xs) && (g.tooFewGroups <==> |CoveredGroups(xs)| < spec.minTotalGroups) &&
      g.coverages == xs &&
      Decided(spec, g.decision, g.missingIds == [] && !g.tooFewGroups, g.coveredIds != [])
  {
    hide InputError, CoverageOf, CoveragesOf, Sort, CoveredIds, CoveredGroups;
  }

  // ---------------------------------------------------------------- acceptance

  // Two fragments of one source agree on family and group, two of one family on
  // the group.
  predicate Agree(a: Candidate, b: Candidate) {
    (a.sourceId == b.sourceId ==> a.sourceFamily == b.sourceFamily && a.group == b.group) &&
    (a.sourceFamily == b.sourceFamily ==> a.group == b.group)
  }

  // The gate accepts exactly the lists without a repeated fragment ID, whose
  // lineage is consistent in the profiles that check it.
  lemma AcceptedExactly(w: Matching, spec: Spec, cs: seq<Candidate>)
    ensures Outcome(w, spec, cs) == Err(FragmentIdsRepeat) <==>
            exists i, j :: 0 <= i < j < |cs| && cs[i].fragmentId == cs[j].fragmentId
    ensures Outcome(w, spec, cs).Ok? <==>
            (forall i, j :: 0 <= i < j < |cs| ==> cs[i].fragmentId != cs[j].fragmentId) &&
            (spec.profile == ProfileV1 || forall a, b :: a in cs && b in cs ==> Agree(a, b))
  {
    hide ResultOf, CoveragesOf, Sort, Lineage, Distinct, Agree;
    DistinctIndices(Map(FragmentKey, cs));
    LineageAgrees(cs);
  }

  lemma LineageAgrees(cs: seq<Candidate>)
    ensures Lineage(cs) == None <==> forall a, b :: a in cs && b in cs ==> Agree(a, b)
    ensures Lineage(cs) != Some(FragmentIdsRepeat)
  {
    LineageCauses(cs);
    hide Lineage;
    assert Consistent(cs) <==> forall a, b :: a in cs && b in cs ==> Agree(a, b);
  }

  // -------------------------------------------------------------- rejection codes

  lemma {:induction false} AnchorCodeListed(w: Matching, p: Profile, folded: string, groups: seq<seq<string>>, code: Code)
    ensures code in AnchorCodes(w, p, folded, groups) <==>
            code.MissingAnchorGroup? && 1 <= code.index <= |groups| &&
            forall literal :: literal in groups[code.index - 1] ==> !LiteralIn(w, p, folded, literal)
  {
    hide LiteralIn;
    if groups != [] { AnchorCodeListed(w, p, folded, groups[..|groups| - 1], code); }
  }

  lemma {:induction false} TagCodeListed(w: Matching, c: Candidate, tags: seq<string>, code: Code)
    ensures code in TagCodes(w, c, tags) <==>
            code.MissingTag? && code.tag in tags && forall mine :: mine in c.tags ==> w.matchText(mine) != w.matchText(code.tag)
  {
    if tags != [] {
      TagCodeListed(w, c, tags[..|tags| - 1], code);
      assert tags == tags[..|tags| - 1] + [tags[|tags| - 1]];
    }
  }

  predicate NoneMatches(w: Matching, value: string, choices: seq<string>) {
    choices != [] && forall choice :: choice in choices ==> w.matchText(value) != w.matchText(choice)
  }

  // Each rejection code is there exactly when its condition of the requirement fails.
  lemma CodesExactly(w: Matching, p: Profile, r: Requirement, c: Candidate, code: Code)
    ensures
      var folded := FoldLiteralText(w, p, c.text);
      code in Codes(w, p, r, c) <==>
      match code
      case WrongSource => r.allowedSourceIds != [] && c.sourceId !in r.allowedSourceIds
      case WrongSourceKind => NoneMatches(w, c.sourceKind, r.sourceKinds)
      case WrongSourceFamily => NoneMatches(w, c.sourceFamily, r.sourceFamilies)
      case WrongAuthority => NoneMatches(w, c.authority, r.authorities)
      case MissingAnchorGroup(index) =>
        1 <= index <= |r.anchorGroups| && forall literal :: literal in r.anchorGroups[index - 1] ==> !LiteralIn(w, p, folded, literal)
      case MissingTag(tag) => tag in r.requiredTags && forall mine :: mine in c.tags ==> w.matchText(mine) != w.matchText(tag)
      case ForbiddenAnchorPresent => exists literal :: literal in r.forbiddenAnchors && LiteralIn(w, p, folded, literal)
  {
    var folded := FoldLiteralText(w, p, c.text);
    AnchorCodeListed(w, p, folded, r.anchorGroups, code);
    TagCodeListed(w, c, r.requiredTags, code);
    hide LiteralIn, FoldLiteralText, AnchorCodes, TagCodes;
    assert code in Codes(w, p, r, c) <==>
           code in SelectorCodes(w, r, c) || code in AnchorCodes(w, p, folded, r.anchorGroups) ||
           code in TagCodes(w, c, r.requiredTags) || (AnyLiteralIn(w, p, folded, r.forbiddenAnchors) && code == ForbiddenAnchorPresent);
  }

  // What a literal's presence means in each matching profile.
  lemma LiteralExactly(w: Matching, p: Profile, text: string, literal: string)
    ensures
      LiteralIn(w, p, FoldLiteralText(w, p, text), literal) <==>
      match p
      case ProfileV1 =>
        var t, l := w.matchText(text), w.matchText(literal);
        exists before, after :: t == before + l + after
      case ProfileV2 =>
        var t, l, isWord := w.u.fold(text), w.u.fold(literal), c => c == '_' || w.u.isAlnum(c);
        exists i :: StandsAt(isWord, t, l, i)
      case ProfileV3 =>
        var t, l, isWord := w.u.normalizeStrict(text), w.u.normalizeStrict(literal), c => c == '_' || w.u.category(c) != OtherCategory;
        exists i :: StandsAt(isWord, t, l, i)
  {
    match p
    case ProfileV1 => OccursExactly(w.matchText(text), w.matchText(literal));
    case ProfileV2 => StandsExactly(w.u.IsWord, c => c == '_' || w.u.isAlnum(c), w.u.fold(text), w.u.fold(literal));
    case ProfileV3 =>
      StandsExactly(w.u.IsStrictWord, c => c == '_' || w.u.category(c) != OtherCategory, w.u.normalizeStrict(text), w.u.normalizeStrict(literal));
  }

  lemma OccursExactly(t: string, l: string)
    ensures (exists i :: OccursAt(t, l, i)) <==> exists before, after :: t == before + l + after
  {
    if i :| OccursAt(t, l, i) { assert t == t[..i] + l + t[i + |l|..]; }
    if before, after :| t == before + l + after { assert OccursAt(t, l, |before|); }
  }

  // ------------------------------------------------------- candidates in order

  // Smaller rank first, then the smaller fragment ID.
  ghost predicate Earlier(a: Candidate, b: Candidate) {
    a.rank < b.rank || (a.rank == b.rank && StrBefore(a.fragmentId, b.fragmentId))
  }

  ghost predicate InOrder(cs: seq<Candidate>) {
    forall i, j :: 0 <= i < j < |cs| ==> Earlier(cs[i], cs[j])
  }

  lemma OrderedAtOnce(cs: seq<Candidate>)
    requires UniqueBy(cs, FragmentKey)
    ensures var ordered := Sort(CandidateLeq, cs); InOrder(ordered) && multiset(ordered) == multiset(cs)
  {
    var ordered := Sort(CandidateLeq, cs);
    CandidateOrder(cs);
    SortCorrect(CandidateLeq, cs);
    MapPermutes(FragmentKey, ordered, cs);
    hide Sort, CandidateLeq, StrLeq, TotalPreorder, Keyed, Distinct;
    DistinctByMultiset(Map(FragmentKey, ordered), Map(FragmentKey, cs));
    SortedIsInOrder(ordered);
  }

  lemma SortedIsInOrder(cs: seq<Candidate>)
    requires UniqueBy(cs, FragmentKey) && Sorted(CandidateLeq, cs)
    ensures InOrder(cs)
  {
    hide StrLeq, StrBefore, Distinct;
    DistinctIndices(Map(FragmentKey, cs));
    forall i, j | 0 <= i < j < |cs| ensures Earlier(cs[i], cs[j]) {
      assert CandidateLeq(cs[i], cs[j]);
      assert Map(FragmentKey, cs)[i] != Map(FragmentKey, cs)[j];
      StrBeforeExactly(cs[i].fragmentId, cs[j].fragmentId);
    }
  }

  lemma {:induction false} MatchedInOrder(cs: seq<Candidate>, found: seq<Assessment>)
    requires |cs| == |found| && InOrder(cs)
    ensures InOrder(MatchedOf(cs, found)) && forall c :: c in MatchedOf(cs, found) ==> c in cs
  {
    hide Earlier;
    if cs != [] {
      MatchedInOrder(cs[1..], found[1..]);
      var rest := MatchedOf(cs[1..], found[1..]);
      forall c | c in rest ensures Earlier(cs[0], c) {
        var i :| 0 <= i < |cs| - 1 && cs[1..][i] == c;
        assert Earlier(cs[0], cs[i + 1]);
      }
    }
  }

  // The record lists the matched fragments, their sources and groups, and what is
  // missing.
  ghost predicate Describes(x: Coverage, r: Requirement, matched: seq<Candidate>) {
    x.requirementId == r.requirementId && |x.matchedFragments| == |matched| &&
    (forall i :: 0 <= i < |matched| ==> x.matchedFragments[i] == matched[i].fragmentId) &&
    (forall id :: id in x.matchedSources <==> exists c :: c in matched && c.sourceId == id) &&
    (forall g :: g in x.matchedGroups <==> exists c :: c in matched && c.group == g) &&
    (x.covered <==> |x.matchedGroups| >= r.minGroups) &&
    (x.missing == Some(NoCandidateSatisfies) <==> matched == []) &&
    (x.missing == Some(TooFewGroups) <==> matched != [] && !x.covered)
  }

  lemma CoverageDescribes(r: Requirement, cs: seq<Candidate>, found: seq<Assessment>)
    requires |cs| == |found|
    ensures Describes(CoverageOf(r, cs, found), r, MatchedOf(cs, found))
  {
    hide MatchedOf, Closest;
  }

  // One requirement's record is about the fragments that meet every condition, in
  // order of rank and fragment ID.
  lemma CoverageExactly(w: Matching, p: Profile, r: Requirement, cs: seq<Candidate>)
    requires UniqueBy(cs, FragmentKey)
    ensures
      var ordered := Sort(CandidateLeq, cs);
      exists matched ::
        InOrder(matched) && (forall c :: c in matched <==> c in cs && Satisfies(w, p, r, c)) &&
        Describes(CoverageOf(r, ordered, Assessments(w, p, r, ordered)), r, matched)
  {
    var ordered := Sort(CandidateLeq, cs);
    var found := Assessments(w, p, r, ordered);
    assert forall c :: (c in ordered <==> c in Elems(ordered)) && (c in cs <==> c in Elems(cs));
    hide Elems, InOrder, Satisfies, Describes, CoverageOf, MatchedOf, Sort, Distinct;
    CandidatesSorted(cs);
    OrderedAtOnce(cs);
    MatchedSatisfy(w, p, r, ordered, found);
    MatchedInOrder(ordered, found);
    CoverageDescribes(r, ordered, found);
  }

  // Fewer codes first, then smaller rank, then the smaller fragment ID: the order in
  // which rejected candidates are near misses.
  lemma CloserExactly(a: Assessment, b: Assessment)
    ensures CloserLeq(a, b) <==>
            |a.codes| < |b.codes| ||
            (|a.codes| == |b.codes| &&
             (a.rank < b.rank || (a.rank == b.rank && (a.fragmentId == b.fragmentId || StrBefore(a.fragmentId, b.fragmentId)))))
  {
    StrBeforeExactly(a.fragmentId, b.fragmentId);
    SeqLeqTotal(CodePoint, a.fragmentId, a.fragmentId);
  }

  // The near misses listed for a requirement: rejected candidates with their codes,
  // closest first, at most three, and none unlisted is closer.
  ghost predicate NearMisses(closest: seq<Assessment>, w: Matching, p: Profile, r: Requirement, cs: seq<Candidate>) {
    |closest| <= 3 && (forall i, j :: 0 <= i < j < |closest| ==> CloserLeq(closest[i], closest[j])) &&
    (forall a :: a in closest ==> exists c :: c in cs && Misses(w, p, r, c, a)) &&
    forall c, b :: c in cs && Misses(w, p, r, c, b) && b !in closest ==> |closest| == 3 && forall a :: a in closest ==> CloserLeq(a, b)
  }

  // The assessment of a rejected candidate.
  ghost predicate Misses(w: Matching, p: Profile, r: Requirement, c: Candidate, a: Assessment) {
    a.fragmentId == c.fragmentId && a.sourceId == c.sourceId && a.rank == c.rank && a.codes == Codes(w, p, r, c) && a.codes != []
  }

  lemma MissesExactly(w: Matching, p: Profile, r: Requirement, c: Candidate, a: Assessment)
    ensures Misses(w, p, r, c, a) <==> a == Assess(w, p, r, c) && a.codes != []
  {
    hide Codes;
  }

  lemma ClosestMiss(w: Matching, p: Profile, r: Requirement, cs: seq<Candidate>, ordered: seq<Candidate>)
    requires forall c :: c in ordered <==> c in cs
    ensures NearMisses(Closest(Assessments(w, p, r, ordered)), w, p, r, cs)
  {
    var found := Assessments(w, p, r, ordered);
    ClosestAreClosest(found);
    hide Closest, CloserLeq, Assess, Misses;
    forall a | a in Closest(found) ensures exists c :: c in cs && Misses(w, p, r, c, a) {
      var i :| 0 <= i < |found| && found[i] == a;
      assert ordered[i] in ordered;
      MissesExactly(w, p, r, ordered[i], a);
    }
    forall c, b | c in cs && Misses(w, p, r, c, b) ensures b in found && b.codes != [] {
      MissesExactly(w, p, r, c, b);
      var i :| 0 <= i < |ordered| && ordered[i] == c;
      assert found[i] == b;
    }
  }

  // One requirement's record in the gate's result.
  ghost predicate Records(x: Coverage, w: Matching, p: Profile, r: Requirement, cs: seq<Candidate>) {
    NearMisses(x.closest, w, p, r, cs) &&
    exists matched ::
      InOrder(matched) && (forall c :: c in matched <==> c in cs && Satisfies(w, p, r, c)) && Describes(x, r, matched)
  }

  // The rest of the result: the digest of the candidates in order of rank and ID,
  // and one record for every requirement.
  lemma ResultRecords(w: Matching, spec: Spec, cs: seq<Candidate>)
    requires Outcome(w, spec, cs).Ok?
    ensures
      var g := Outcome(w, spec, cs).value;
      (exists ordered :: InOrder(ordered) && multiset(ordered) == multiset(cs) && g.candidateSetHash == w.digest(ordered)) &&
      |g.coverages| == |spec.requirements| &&
      forall i :: 0 <= i < |spec.requirements| ==> Records(g.coverages[i], w, spec.profile, spec.requirements[i], cs)
  {
    var rs, ordered := spec.requirements, Sort(CandidateLeq, cs);
    assert UniqueBy(cs, FragmentKey) && Outcome(w, spec, cs).value.candidateSetHash == w.digest(ordered);
    ResultIs(w, spec, cs);
    OrderedAtOnce(cs);
    CandidatesSorted(cs);
    assert forall c :: (c in ordered <==> c in Elems(ordered)) && (c in cs <==> c in Elems(cs));
    hide Outcome, Elems, InOrder, Sort, UniqueBy, Satisfies, Describes, Records, NearMisses;
    forall i | 0 <= i < |rs| ensures Records(CoveragesOf(w, spec.profile, rs, ordered)[i], w, spec.profile, rs[i], cs) {
      RecordOfRequirement(w, spec.profile, rs[i], cs);
    }
  }

  lemma RecordOfRequirement(w: Matching, p: Profile, r: Requirement, cs: seq<Candidate>)
    requires UniqueBy(cs, FragmentKey)
    ensures var ordered := Sort(CandidateLeq, cs); Records(CoverageOf(r, ordered, Assessments(w, p, r, ordered)), w, p, r, cs)
  {
    var ordered := Sort(CandidateLeq, cs);
    CandidatesSorted(cs);
    assert forall c :: (c in ordered <==> c in Elems(ordered)) && (c in cs <==> c in Elems(cs));
    assert CoverageOf(r, ordered, Assessments(w, p, r, ordered)).closest == Closest(Assessments(w, p, r, ordered));
    hide Elems, InOrder, Sort, Satisfies, Describes, NearMisses, CoverageOf, UniqueBy;
    CoverageExactly(w, p, r, cs);
    ClosestMiss(w, p, r, cs, ordered);
  }
}
