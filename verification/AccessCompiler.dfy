// The access compiler: which fragments of a snapshot a request may read.

module AccessCompiler {
  import opened Common
  import opened Ordering

  // ----------------------------------------------------------- the contracts

  datatype MembershipState = Active | Excluded | Holdout

  datatype PolicyEffect = Allow | Deny

  datatype Membership = Membership(collectionId: Id, state: MembershipState)

  datatype CollectionRule = CollectionRule(collectionId: Id, effect: PolicyEffect)

  datatype SourceRule = SourceRule(sourceId: Id, effect: PolicyEffect)

  datatype PolicyData = PolicyData(
    libraryId: Id, allowedPurposes: seq<string>,
    collectionRules: seq<CollectionRule>, sourceRules: seq<SourceRule>)

  datatype Exclusions = Exclusions(sourceIds: seq<Id>, familyIds: seq<Id>, fragmentIds: seq<Id>)

  datatype Scope = Scope(
    libraryId: Id, snapshotHash: string, purpose: string, collectionIds: seq<Id>, exclusions: Exclusions)

  datatype CandidateData = CandidateData(
    fragmentId: Id, versionId: Id, sourceId: Id, familyId: Option<Id>, memberships: seq<Membership>)

  datatype Item = Item(
    fragmentId: Id, versionId: Id, sourceId: Id, familyId: Option<Id>, collectionIds: seq<Id>)

  datatype Manifest = Manifest(libraryId: Id, snapshotHash: string, items: seq<Item>, setHash: string)

  datatype Token = Token(
    libraryId: Id, snapshotHash: string, policyHash: string, exclusionHash: string, setHash: string)

  datatype Compiled = Compiled(manifest: Manifest, token: Token, policyOmission: bool)

  datatype AccessError = LibraryMismatch | PurposeNotAllowed | ConflictingMetadata

  // The SHA-256 digests of the canonical payloads.
  datatype Digests = Digests(
    policy: Policy -> string,
    scope: Scope -> string,
    permittedSet: (Id, string, seq<Item>) -> string)

  function MembershipCollection(m: Membership): Id { m.collectionId }

  function RuleCollection(r: CollectionRule): Id { r.collectionId }

  function RuleSource(r: SourceRule): Id { r.sourceId }

  function ItemFragment(i: Item): Id { i.fragmentId }

  // Policies and candidates exist only in canonical form.
  type Policy = p: PolicyData | UniqueBy(p.collectionRules, RuleCollection) && UniqueBy(p.sourceRules, RuleSource)
    witness PolicyData("library_x", ["use"], [], [])

  type Candidate = c: CandidateData | UniqueBy(c.memberships, MembershipCollection)
    witness CandidateData("fragment_x", "source_version_x", "source_x", None, [])

  // -------------------------------------------------------- the set of permits

  function Relevant(scope: Scope, c: Candidate): seq<Membership> {
    Filter((m: Membership) => m.collectionId in scope.collectionIds, c.memberships)
  }

  predicate AllActive(scope: Scope, c: Candidate) {
    forall m :: m in Relevant(scope, c) ==> m.state == Active
  }

  predicate ExplicitlyExcluded(e: Exclusions, c: Candidate) {
    c.sourceId in e.sourceIds || (c.familyId.Some? && c.familyId.value in e.familyIds) || c.fragmentId in e.fragmentIds
  }

  // What the request itself asks for, before policy is consulted.
  predicate Requested(scope: Scope, c: Candidate) {
    Relevant(scope, c) != [] && AllActive(scope, c) && !ExplicitlyExcluded(scope.exclusions, c)
  }

  predicate CollectionAllowed(policy: Policy, id: Id) {
    CollectionRule(id, Allow) in policy.collectionRules
  }

  // Any unlisted or denied collection wins over any allowed one, and a source
  // deny wins over all of them.
  predicate Authorized(policy: Policy, scope: Scope, c: Candidate) {
    (forall m :: m in Relevant(scope, c) ==> CollectionAllowed(policy, m.collectionId)) &&
    SourceRule(c.sourceId, Deny) !in policy.sourceRules
  }

  predicate Permitted(policy: Policy, scope: Scope, c: Candidate) {
    Requested(scope, c) && Authorized(policy, scope, c)
  }

  function ItemOf(scope: Scope, c: Candidate): Item {
    Item(c.fragmentId, c.versionId, c.sourceId, c.familyId,
         Sort(StrLeq, Map(MembershipCollection, Relevant(scope, c))))
  }

  // The candidates permitted and, of a set of candidates, the items they yield.
  ghost function PermittedItems(policy: Policy, scope: Scope, cs: set<Candidate>): set<Item> {
    set c | c in cs && Permitted(policy, scope, c) :: ItemOf(scope, c)
  }

  ghost predicate Conflict(items: set<Item>) {
    exists x, y :: x in items && y in items && x != y && x.fragmentId == y.fragmentId
  }

  ghost predicate Withheld(policy: Policy, scope: Scope, cs: set<Candidate>) {
    exists c :: c in cs && Requested(scope, c) && !Authorized(policy, scope, c)
  }

  predicate ItemLeq(a: Item, b: Item) { StrLeq(a.fragmentId, b.fragmentId) }

  ghost predicate ManifestOf(m: Manifest, scope: Scope, items: set<Item>, d: Digests) {
    m.libraryId == scope.libraryId && m.snapshotHash == scope.snapshotHash &&
    Elems(m.items) == items && Sorted(ItemLeq, m.items) && UniqueBy(m.items, ItemFragment) &&
    m.setHash == d.permittedSet(scope.libraryId, scope.snapshotHash, m.items)
  }

  function TokenFor(policy: Policy, scope: Scope, setHash: string, d: Digests): Token {
    Token(scope.libraryId, scope.snapshotHash, d.policy(policy), d.scope(scope), setHash)
  }

  // The whole outcome, as a property of the candidates taken as a set.
  ghost predicate CompilesTo(
    policy: Policy, scope: Scope, cs: set<Candidate>, d: Digests, r: Result<Compiled, AccessError>)
  {
    var items := PermittedItems(policy, scope, cs);
    if policy.libraryId != scope.libraryId then r == Err(LibraryMismatch)
    else if scope.purpose !in policy.allowedPurposes then r == Err(PurposeNotAllowed)
    else if Conflict(items) then r == Err(ConflictingMetadata)
    else
      r.Ok? && ManifestOf(r.value.manifest, scope, items, d) &&
      r.value.token == TokenFor(policy, scope, r.value.manifest.setHash, d) &&
      (r.value.policyOmission <==> Withheld(policy, scope, cs))
  }

  // ------------------------------------------------------------ the compiler

  lemma RuleLookup(rules: seq<CollectionRule>, id: Id)
    requires UniqueBy(rules, RuleCollection)
    ensures FindBy(RuleCollection, rules, id) == Some(CollectionRule(id, Allow)) <==> CollectionRule(id, Allow) in rules
  {
    if CollectionRule(id, Allow) in rules { FindByKey(RuleCollection, rules, CollectionRule(id, Allow)); }
  }

  lemma SourceLookup(rules: seq<SourceRule>, id: Id)
    requires UniqueBy(rules, RuleSource)
    ensures FindBy(RuleSource, rules, id) == Some(SourceRule(id, Deny)) <==> SourceRule(id, Deny) in rules
  {
    if SourceRule(id, Deny) in rules { FindByKey(RuleSource, rules, SourceRule(id, Deny)); }
  }

  lemma AppendItem(items: seq<Item>, x: Item)
    requires UniqueBy(items, ItemFragment) && FindBy(ItemFragment, items, x.fragmentId).None?
    ensures UniqueBy(items + [x], ItemFragment)
    ensures Elems(items + [x]) == Elems(items) + {x}
  {
    hide Distinct;
    var ids := Map(ItemFragment, items);
    MapConcat(ItemFragment, items, [x]);
    assert Map(ItemFragment, items + [x]) == ids + [x.fragmentId];
    assert x.fragmentId !in ids by {
      forall i | 0 <= i < |ids| ensures ids[i] != x.fragmentId { assert items[i] in items; }
    }
    DistinctSnoc(ids, x.fragmentId);
    ElemsConcat(items, [x]);
  }

  lemma NoConflictWhenUnique(items: seq<Item>)
    requires UniqueBy(items, ItemFragment)
    ensures !Conflict(Elems(items))
  {
    forall x, y | x in items && y in items && x.fragmentId == y.fragmentId ensures x == y {
      UniqueByIds(items, ItemFragment, x, y);
    }
  }

  lemma SortItems(items: seq<Item>) returns (sorted: seq<Item>)
    requires UniqueBy(items, ItemFragment)
    ensures sorted == Sort(ItemLeq, items)
    ensures Sorted(ItemLeq, sorted) && Elems(sorted) == Elems(items) && UniqueBy(sorted, ItemFragment)
  {
    sorted := Sort(ItemLeq, items);
    ItemLeqIsTotalPreorder();
    SortCorrect(ItemLeq, items);
    SameElements(items, sorted);
    MapPermutes(ItemFragment, items, sorted);
    DistinctByMultiset(Map(ItemFragment, items), Map(ItemFragment, sorted));
  }

  lemma ItemLeqIsTotalPreorder()
    ensures TotalPreorder(ItemLeq)
  {
    StrLeqIsTotalPreorder();
  }

  function TakeSet(cs: seq<Candidate>, n: nat): set<Candidate>
    requires n <= |cs|
  {
    Elems(cs[..n])
  }

  lemma TakeStep(policy: Policy, scope: Scope, cs: seq<Candidate>, n: nat)
    requires n < |cs|
    ensures TakeSet(cs, n + 1) == TakeSet(cs, n) + {cs[n]}
    ensures PermittedItems(policy, scope, TakeSet(cs, n + 1)) ==
            if Permitted(policy, scope, cs[n])
            then PermittedItems(policy, scope, TakeSet(cs, n)) + {ItemOf(scope, cs[n])}
            else PermittedItems(policy, scope, TakeSet(cs, n))
    ensures Withheld(policy, scope, TakeSet(cs, n + 1)) <==>
            Withheld(policy, scope, TakeSet(cs, n)) || (Requested(scope, cs[n]) && !Authorized(policy, scope, cs[n]))
  {
    hide Permitted, Requested, Authorized, ItemOf;
    assert cs[..n + 1] == cs[..n] + [cs[n]];
  }

  lemma ConflictGrows(policy: Policy, scope: Scope, a: set<Candidate>, b: set<Candidate>)
    requires a <= b && Conflict(PermittedItems(policy, scope, a))
    ensures Conflict(PermittedItems(policy, scope, b))
  {
    hide Permitted, ItemOf;
    assert PermittedItems(policy, scope, a) <= PermittedItems(policy, scope, b);
  }

  method Judge(policy: Policy, scope: Scope, c: Candidate) returns (permitted: bool, omitted: bool)
    ensures permitted <==> Permitted(policy, scope, c)
    ensures omitted <==> Requested(scope, c) && !Authorized(policy, scope, c)
  {
    var relevant := Relevant(scope, c);
    if relevant == [] { return false, false; }
    if exists m :: m in relevant && m.state != Active { return false, false; }
    if c.sourceId in scope.exclusions.sourceIds { return false, false; }
    if c.familyId.Some? && c.familyId.value in scope.exclusions.familyIds { return false, false; }
    if c.fragmentId in scope.exclusions.fragmentIds { return false, false; }
    forall m: Membership ensures
      FindBy(RuleCollection, policy.collectionRules, m.collectionId) == Some(CollectionRule(m.collectionId, Allow)) <==>
      CollectionAllowed(policy, m.collectionId)
    {
      RuleLookup(policy.collectionRules, m.collectionId);
    }
    if exists m :: m in relevant &&
         FindBy(RuleCollection, policy.collectionRules, m.collectionId) != Some(CollectionRule(m.collectionId, Allow))
    { return false, true; }
    SourceLookup(policy.sourceRules, c.sourceId);
    if FindBy(RuleSource, policy.sourceRules, c.sourceId) == Some(SourceRule(c.sourceId, Deny)) { return false, true; }
    return true, false;
  }

  method CompileAccess(policy: Policy, scope: Scope, candidates: seq<Candidate>, d: Digests)
    returns (r: Result<Compiled, AccessError>)
    ensures CompilesTo(policy, scope, Elems(candidates), d, r)
  {
    hide Permitted, Requested, Authorized, ItemOf, PermittedItems, Conflict, Withheld, TakeSet, UniqueBy;
    if policy.libraryId != scope.libraryId { return Err(LibraryMismatch); }
    if scope.purpose !in policy.allowedPurposes { return Err(PurposeNotAllowed); }
    var permitted: seq<Item> := [];
    var omission := false;
    NothingTaken(policy, scope, candidates);
    for i := 0 to |candidates|
      invariant UniqueBy(permitted, ItemFragment)
      invariant Elems(permitted) == PermittedItems(policy, scope, TakeSet(candidates, i))
      invariant omission <==> Withheld(policy, scope, TakeSet(candidates, i))
    {
      TakeStep(policy, scope, candidates, i);
      var allowed, omitted := Judge(policy, scope, candidates[i]);
      if omitted { omission := true; }
      if allowed {
        var item := ItemOf(scope, candidates[i]);
        var previous := FindBy(ItemFragment, permitted, ItemFragment(item));
        if previous.None? {
          AppendItem(permitted, item);
          permitted := permitted + [item];
        } else if previous.value != item {
          Clash(policy, scope, candidates, i, previous.value, item);
          return Err(ConflictingMetadata);
        } else {
          assert Elems(permitted) == Elems(permitted) + {item};
        }
      }
    }
    AllTaken(candidates);
    NoConflictWhenUnique(permitted);
    ghost var _ := SortItems(permitted);
    var items := Sort(ItemLeq, permitted);
    var manifest := Manifest(scope.libraryId, scope.snapshotHash, items,
                             d.permittedSet(scope.libraryId, scope.snapshotHash, items));
    return Ok(Compiled(manifest, TokenFor(policy, scope, manifest.setHash, d), omission));
  }

  lemma NothingTaken(policy: Policy, scope: Scope, cs: seq<Candidate>)
    ensures PermittedItems(policy, scope, TakeSet(cs, 0)) == {} == Elems<Item>([])
    ensures !Withheld(policy, scope, TakeSet(cs, 0))
    ensures UniqueBy([], ItemFragment)
  {
  }

  lemma AllTaken(cs: seq<Candidate>)
    ensures TakeSet(cs, |cs|) == Elems(cs)
  {
    assert cs[..|cs|] == cs;
  }

  lemma Clash(policy: Policy, scope: Scope, cs: seq<Candidate>, i: nat, previous: Item, item: Item)
    requires i < |cs|
    requires {previous, item} <= PermittedItems(policy, scope, TakeSet(cs, i + 1))
    requires previous != item && previous.fragmentId == item.fragmentId
    ensures Conflict(PermittedItems(policy, scope, Elems(cs)))
  {
    hide PermittedItems;
    assert TakeSet(cs, i + 1) <= Elems(cs);
    assert Conflict(PermittedItems(policy, scope, TakeSet(cs, i + 1)));
    ConflictGrows(policy, scope, TakeSet(cs, i + 1), Elems(cs));
  }

  // --------------------------------------------------------------- theorems

  // Permission of one fragment, read off the candidate: a relevant membership,
  // none that is inactive or not allowed, no exclusion, no source deny.
  lemma PermittedExactly(policy: Policy, scope: Scope, c: Candidate)
    ensures Permitted(policy, scope, c) <==>
      (exists m :: m in c.memberships && m.collectionId in scope.collectionIds) &&
      (forall m :: m in c.memberships && m.collectionId in scope.collectionIds ==>
         m.state == Active && CollectionRule(m.collectionId, Allow) in policy.collectionRules) &&
      !ExplicitlyExcluded(scope.exclusions, c) &&
      SourceRule(c.sourceId, Deny) !in policy.sourceRules
  {
    var relevant := Relevant(scope, c);
    if relevant != [] { assert relevant[0] in relevant; }
  }

  // A permitted item passes its own constructor: its collections are sorted,
  // unique and not empty, and all of them were requested.
  lemma PermittedItemIsWellFormed(policy: Policy, scope: Scope, c: Candidate)
    requires Permitted(policy, scope, c)
    ensures var ids := ItemOf(scope, c).collectionIds;
            ids != [] && Distinct(ids) && Sorted(StrLeq, ids) && Elems(ids) <= Elems(scope.collectionIds)
  {
    var ids := Map(MembershipCollection, Relevant(scope, c));
    StrLeqIsTotalPreorder();
    SortCorrect(StrLeq, ids);
    SameElements(ids, Sort(StrLeq, ids));
    FilterDistinct((m: Membership) => m.collectionId in scope.collectionIds, MembershipCollection, c.memberships);
    DistinctByMultiset(ids, Sort(StrLeq, ids));
    MapElems(MembershipCollection, Relevant(scope, c));
  }

  lemma KeyedItems(items: seq<Item>)
    requires UniqueBy(items, ItemFragment)
    ensures Keyed(ItemLeq, items)
  {
    forall x, y | x in items && y in items && ItemLeq(x, y) && ItemLeq(y, x) ensures x == y {
      StrLeqAntisymmetric(x.fragmentId, y.fragmentId);
      UniqueByIds(items, ItemFragment, x, y);
    }
  }

  lemma {:induction false} UniqueItemsCount(items: seq<Item>)
    requires UniqueBy(items, ItemFragment)
    ensures Distinct(items)
  {
    DistinctIndices(Map(ItemFragment, items));
    forall i, j | 0 <= i < j < |items| ensures items[i] != items[j] {
      assert Map(ItemFragment, items)[i] != Map(ItemFragment, items)[j];
    }
    DistinctIndices(items);
  }

  // The manifest for a set of items is unique.
  lemma ManifestUnique(a: Manifest, b: Manifest, scope: Scope, items: set<Item>, d: Digests)
    requires ManifestOf(a, scope, items, d) && ManifestOf(b, scope, items, d)
    ensures a == b
  {
    UniqueItemsCount(a.items);
    UniqueItemsCount(b.items);
    DistinctMultiset(a.items);
    DistinctMultiset(b.items);
    KeyedItems(a.items);
    ItemLeqIsTotalPreorder();
    SortedUnique(ItemLeq, a.items, b.items);
  }

  // The value, or the error, does not depend on the candidates' order, nor on
  // how often each is listed.
  lemma OutcomeIgnoresOrder(policy: Policy, scope: Scope, a: seq<Candidate>, b: seq<Candidate>, d: Digests,
                            r: Result<Compiled, AccessError>, s: Result<Compiled, AccessError>)
    requires multiset(a) == multiset(b) || Elems(a) == Elems(b)
    requires CompilesTo(policy, scope, Elems(a), d, r) && CompilesTo(policy, scope, Elems(b), d, s)
    ensures r == s
  {
    if multiset(a) == multiset(b) { SameElements(a, b); }
    hide ManifestOf, PermittedItems, Conflict, Withheld;
    if r.Ok? {
      ManifestUnique(r.value.manifest, s.value.manifest, scope, PermittedItems(policy, scope, Elems(a)), d);
    }
  }

  // Candidates that are not permitted leave no trace in manifest or token.
  lemma DeniedCandidatesAreInvisible(policy: Policy, scope: Scope, cs: set<Candidate>, kept: set<Candidate>, d: Digests,
                                     r: Result<Compiled, AccessError>, s: Result<Compiled, AccessError>)
    requires kept <= cs && forall c :: c in cs - kept ==> !Permitted(policy, scope, c)
    requires CompilesTo(policy, scope, cs, d, r) && CompilesTo(policy, scope, kept, d, s)
    ensures r.Err? || s.Err? ==> r == s
    ensures r.Ok? && s.Ok? ==> r.value.manifest == s.value.manifest && r.value.token == s.value.token
  {
    assert PermittedItems(policy, scope, kept) == PermittedItems(policy, scope, cs) by {
      hide Permitted, ItemOf;
      forall c | c in cs && Permitted(policy, scope, c) ensures c in kept {}
    }
    hide ManifestOf, PermittedItems, Conflict, Withheld;
    if r.Ok? {
      ManifestUnique(r.value.manifest, s.value.manifest, scope, PermittedItems(policy, scope, cs), d);
    }
  }

  predicate MoreExclusions(a: Exclusions, b: Exclusions) {
    Elems(a.sourceIds) <= Elems(b.sourceIds) && Elems(a.familyIds) <= Elems(b.familyIds) &&
    Elems(a.fragmentIds) <= Elems(b.fragmentIds)
  }

  lemma MoreExclusionsPermitLess(policy: Policy, scope: Scope, e: Exclusions, c: Candidate)
    requires MoreExclusions(scope.exclusions, e)
    ensures var tight := scope.(exclusions := e);
            (Requested(tight, c) ==> Requested(scope, c)) &&
            (Permitted(policy, tight, c) <==> Permitted(policy, scope, c) && !ExplicitlyExcluded(e, c)) &&
            ItemOf(tight, c) == ItemOf(scope, c) && (Authorized(policy, tight, c) <==> Authorized(policy, scope, c))
  {
    var tight := scope.(exclusions := e);
    assert Relevant(tight, c) == Relevant(scope, c) by { SameFilter(scope, tight, c.memberships); }
    assert ExplicitlyExcluded(scope.exclusions, c) ==> ExplicitlyExcluded(e, c) by {
      assert c.sourceId in Elems(scope.exclusions.sourceIds) ==> c.sourceId in Elems(e.sourceIds);
      assert c.fragmentId in Elems(scope.exclusions.fragmentIds) ==> c.fragmentId in Elems(e.fragmentIds);
      if c.familyId.Some? {
        assert c.familyId.value in Elems(scope.exclusions.familyIds) ==> c.familyId.value in Elems(e.familyIds);
      }
    }
  }

  lemma {:induction false} SameFilter(a: Scope, b: Scope, ms: seq<Membership>)
    requires a.collectionIds == b.collectionIds
    ensures Filter((m: Membership) => m.collectionId in a.collectionIds, ms) ==
            Filter((m: Membership) => m.collectionId in b.collectionIds, ms)
  {
    if ms != [] { SameFilter(a, b, ms[1..]); }
  }

  // More exclusions only shrink the permitted set, to exactly what they do not
  // name; they never turn a success into a failure, nor reveal a policy denial.
  lemma MoreExclusionsShrink(policy: Policy, scope: Scope, e: Exclusions, cs: set<Candidate>, d: Digests,
                             r: Result<Compiled, AccessError>, s: Result<Compiled, AccessError>)
    requires MoreExclusions(scope.exclusions, e)
    requires CompilesTo(policy, scope, cs, d, r) && CompilesTo(policy, scope.(exclusions := e), cs, d, s)
    requires r.Ok?
    ensures s.Ok?
    ensures Elems(s.value.manifest.items) <= Elems(r.value.manifest.items)
    ensures Elems(s.value.manifest.items) ==
            PermittedItems(policy, scope, set c | c in cs && !ExplicitlyExcluded(e, c))
    ensures s.value.policyOmission ==> r.value.policyOmission
  {
    var tight := scope.(exclusions := e);
    forall c: Candidate ensures
      (Requested(tight, c) ==> Requested(scope, c)) &&
      (Permitted(policy, tight, c) <==> Permitted(policy, scope, c) && !ExplicitlyExcluded(e, c)) &&
      ItemOf(tight, c) == ItemOf(scope, c) && (Authorized(policy, tight, c) <==> Authorized(policy, scope, c))
    {
      MoreExclusionsPermitLess(policy, scope, e, c);
    }
    hide Permitted, Requested, Authorized, ItemOf, ExplicitlyExcluded;
    var rest := set c | c in cs && !ExplicitlyExcluded(e, c);
    assert PermittedItems(policy, tight, cs) == PermittedItems(policy, scope, rest);
    assert PermittedItems(policy, scope, rest) <= PermittedItems(policy, scope, cs);
  }
}
