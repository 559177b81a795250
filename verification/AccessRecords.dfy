// The access compiler's outcome read off policy, request and candidates, field by
// field.

module AccessRecords {
  import opened Common
  import opened Ordering
  import opened AccessCompiler

  // -------------------------------------------------------------- the conditions

  predicate Named(e: Exclusions, c: Candidate) {
    c.sourceId in e.sourceIds || c.fragmentId in e.fragmentIds || exists f :: f in e.familyIds && c.familyId == Some(f)
  }

  // The request asks for the fragment: it is an active member of a requested
  // collection, inactive in none, and not excluded.
  predicate Asked(scope: Scope, c: Candidate) {
    (exists m :: m in c.memberships && m.collectionId in scope.collectionIds) &&
    (forall m :: m in c.memberships && m.collectionId in scope.collectionIds ==> m.state == Active) &&
    !Named(scope.exclusions, c)
  }

  // The policy allows every requested collection it is in, and does not deny its source.
  predicate Cleared(policy: Policy, scope: Scope, c: Candidate) {
    (forall m :: m in c.memberships && m.collectionId in scope.collectionIds ==>
      exists rule :: rule in policy.collectionRules && rule.collectionId == m.collectionId && rule.effect == Allow) &&
    !exists rule :: rule in policy.sourceRules && rule.sourceId == c.sourceId && rule.effect == Deny
  }

  // A requested collection that the candidate is a member of.
  predicate ShownIn(scope: Scope, c: Candidate, id: Id) {
    id in scope.collectionIds && exists m :: m in c.memberships && m.collectionId == id
  }

  // The item repeats the candidate's metadata and lists its requested collections.
  ghost predicate Shows(scope: Scope, c: Candidate, x: Item) {
    x.fragmentId == c.fragmentId && x.versionId == c.versionId && x.sourceId == c.sourceId && x.familyId == c.familyId &&
    (forall i, j :: 0 <= i < j < |x.collectionIds| ==> StrBefore(x.collectionIds[i], x.collectionIds[j])) &&
    forall id :: id in x.collectionIds <==> ShownIn(scope, c, id)
  }

  lemma RelevantExactly(scope: Scope, c: Candidate, m: Membership)
    ensures m in Relevant(scope, c) <==> m in c.memberships && m.collectionId in scope.collectionIds
  {
  }

  lemma NamedExactly(e: Exclusions, c: Candidate)
    ensures ExplicitlyExcluded(e, c) <==> Named(e, c)
  {
  }

  lemma AskedExactly(scope: Scope, c: Candidate)
    ensures Requested(scope, c) <==> Asked(scope, c)
  {
    var relevant := Relevant(scope, c);
    forall m ensures m in relevant <==> m in c.memberships && m.collectionId in scope.collectionIds { RelevantExactly(scope, c, m); }
    NamedExactly(scope.exclusions, c);
    hide Relevant, ExplicitlyExcluded, Named;
    if relevant != [] { assert relevant[0] in relevant; }
  }

  lemma ClearedExactly(policy: Policy, scope: Scope, c: Candidate)
    ensures Authorized(policy, scope, c) <==> Cleared(policy, scope, c)
  {
    forall m ensures m in Relevant(scope, c) <==> m in c.memberships && m.collectionId in scope.collectionIds {
      RelevantExactly(scope, c, m);
    }
    hide Relevant;
    forall id ensures CollectionAllowed(policy, id) <==>
      exists rule :: rule in policy.collectionRules && rule.collectionId == id && rule.effect == Allow
    {
      if rule :| rule in policy.collectionRules && rule.collectionId == id && rule.effect == Allow {
        assert rule == CollectionRule(id, Allow);
      }
    }
    hide CollectionAllowed;
    if rule :| rule in policy.sourceRules && rule.sourceId == c.sourceId && rule.effect == Deny {
      assert rule == SourceRule(c.sourceId, Deny);
    }
  }

  // ------------------------------------------------------------------- the items

  ghost predicate Ascends(ids: seq<Id>) {
    forall i, j :: 0 <= i < j < |ids| ==> StrBefore(ids[i], ids[j])
  }

  lemma AscendsExactly(ids: seq<Id>)
    ensures Ascends(ids) <==> Sorted(StrLeq, ids) && Distinct(ids)
  {
    DistinctIndices(ids);
    hide StrLeq, StrBefore, Distinct;
    forall i, j | 0 <= i < j < |ids| ensures StrBefore(ids[i], ids[j]) <==> StrLeq(ids[i], ids[j]) && ids[i] != ids[j] {
      StrBeforeExactly(ids[i], ids[j]);
    }
  }

  lemma AscendingUnique(a: seq<Id>, b: seq<Id>)
    requires Ascends(a) && Ascends(b) && forall id :: id in a <==> id in b
    ensures a == b
  {
    assert Elems(a) == Elems(b);
    hide Distinct, StrLeq, Ascends, Keyed;
    AscendsExactly(a);
    AscendsExactly(b);
    DistinctMultiset(a);
    DistinctMultiset(b);
    StrLeqIsTotalPreorder();
    StrLeqKeyed(a);
    SortedUnique(StrLeq, a, b);
  }

  lemma StrLeqKeyed(ids: seq<Id>)
    ensures Keyed(StrLeq, ids)
  {
    hide StrLeq;
    forall x, y | x in ids && y in ids && StrLeq(x, y) && StrLeq(y, x) ensures x == y { StrLeqAntisymmetric(x, y); }
  }

  lemma RelevantIds(scope: Scope, c: Candidate, id: Id)
    ensures Distinct(Map(MembershipCollection, Relevant(scope, c)))
    ensures id in Elems(Map(MembershipCollection, Relevant(scope, c))) <==> ShownIn(scope, c, id)
  {
    FilterDistinct((m: Membership) => m.collectionId in scope.collectionIds, MembershipCollection, c.memberships);
    MapElems(MembershipCollection, Relevant(scope, c));
    forall m ensures m in Relevant(scope, c) <==> m in c.memberships && m.collectionId in scope.collectionIds {
      RelevantExactly(scope, c, m);
    }
    hide Relevant, Distinct;
  }

  lemma SortedIds(ids: seq<Id>)
    requires Distinct(ids)
    ensures var sorted := Sort(StrLeq, ids); Ascends(sorted) && forall id :: id in sorted <==> id in Elems(ids)
  {
    var sorted := Sort(StrLeq, ids);
    hide StrLeq, Sort, Distinct, TotalPreorder, Ascends;
    StrLeqIsTotalPreorder();
    SortCorrect(StrLeq, ids);
    SameElements(ids, sorted);
    DistinctByMultiset(ids, sorted);
    AscendsExactly(sorted);
    forall id ensures id in sorted <==> id in Elems(sorted) {}
  }

  lemma ShowsItem(scope: Scope, c: Candidate)
    ensures Shows(scope, c, ItemOf(scope, c))
  {
    var ids := Map(MembershipCollection, Relevant(scope, c));
    var sorted := Sort(StrLeq, ids);
    hide StrLeq, StrBefore, Sort, Distinct, Relevant, Map, ShownIn;
    forall id ensures id in Elems(ids) <==> ShownIn(scope, c, id) { RelevantIds(scope, c, id); }
    assert Distinct(ids) by { RelevantIds(scope, c, ""); }
    SortedIds(ids);
  }

  // A candidate shows as one item.
  lemma ShowsExactly(scope: Scope, c: Candidate, x: Item)
    ensures Shows(scope, c, x) <==> x == ItemOf(scope, c)
  {
    ShowsItem(scope, c);
    if Shows(scope, c, x) {
      var y := ItemOf(scope, c);
      hide ItemOf, ShownIn, StrBefore;
      assert Ascends(x.collectionIds) && Ascends(y.collectionIds);
      AscendingUnique(x.collectionIds, y.collectionIds);
    }
  }

  // ----------------------------------------------------------------- the outcome

  predicate Granted(policy: Policy, scope: Scope, c: Candidate) {
    Asked(scope, c) && Cleared(policy, scope, c)
  }

  // Two candidates describe the fragment alike.
  predicate SameView(scope: Scope, a: Candidate, b: Candidate) {
    a.fragmentId == b.fragmentId && a.versionId == b.versionId && a.sourceId == b.sourceId && a.familyId == b.familyId &&
    forall id :: id in scope.collectionIds ==> (ShownIn(scope, a, id) <==> ShownIn(scope, b, id))
  }

  lemma SameViewExactly(scope: Scope, a: Candidate, b: Candidate)
    ensures SameView(scope, a, b) <==> ItemOf(scope, a) == ItemOf(scope, b)
  {
    ShowsExactly(scope, b, ItemOf(scope, a));
    ShowsItem(scope, a);
    assert forall id :: ShownIn(scope, a, id) ==> id in scope.collectionIds;
    assert forall id :: ShownIn(scope, b, id) ==> id in scope.collectionIds;
    assert ItemOf(scope, a).fragmentId == a.fragmentId;
    hide ItemOf, ShownIn, StrBefore;
  }

  // Two granted candidates describe one fragment differently.
  ghost predicate Disagree(policy: Policy, scope: Scope, cs: seq<Candidate>) {
    exists a, b :: a in cs && b in cs && Granted(policy, scope, a) && Granted(policy, scope, b) &&
      a.fragmentId == b.fragmentId && !SameView(scope, a, b)
  }

  ghost predicate SomeWithheld(policy: Policy, scope: Scope, cs: seq<Candidate>) {
    exists c :: c in cs && Asked(scope, c) && !Cleared(policy, scope, c)
  }

  // The manifest lists the items of the granted candidates, each once, by fragment ID.
  ghost predicate ListsGranted(items: seq<Item>, policy: Policy, scope: Scope, cs: seq<Candidate>) {
    (forall i, j :: 0 <= i < j < |items| ==> StrBefore(items[i].fragmentId, items[j].fragmentId)) &&
    forall x :: x in items <==> exists c :: c in cs && Granted(policy, scope, c) && Shows(scope, c, x)
  }

  lemma PermitsByRecord(policy: Policy, scope: Scope, cs: seq<Candidate>)
    ensures forall c :: Permitted(policy, scope, c) <==> Granted(policy, scope, c)
    ensures forall x :: x in PermittedItems(policy, scope, Elems(cs)) <==>
              exists c :: c in cs && Granted(policy, scope, c) && Shows(scope, c, x)
    ensures Withheld(policy, scope, Elems(cs)) <==> SomeWithheld(policy, scope, cs)
  {
    forall c: Candidate ensures (Requested(scope, c) <==> Asked(scope, c)) && (Authorized(policy, scope, c) <==> Cleared(policy, scope, c)) {
      AskedExactly(scope, c);
      ClearedExactly(policy, scope, c);
    }
    hide Requested, Authorized, Asked, Cleared, ItemOf, Shows;
    forall c: Candidate, x ensures Shows(scope, c, x) <==> x == ItemOf(scope, c) { ShowsExactly(scope, c, x); }
    forall c: Candidate ensures c in cs <==> c in Elems(cs) {}
    hide Elems;
  }

  lemma ConflictShows(policy: Policy, scope: Scope, cs: seq<Candidate>, x: Item, y: Item)
    requires {x, y} <= PermittedItems(policy, scope, Elems(cs)) && x != y && x.fragmentId == y.fragmentId
    ensures Disagree(policy, scope, cs)
  {
    PermitsByRecord(policy, scope, cs);
    assert x in {x, y} && y in {x, y};
    hide Granted, PermittedItems, Permitted, Shows, SameView;
    var a :| a in cs && Granted(policy, scope, a) && Shows(scope, a, x);
    var b :| b in cs && Granted(policy, scope, b) && Shows(scope, b, y);
    ShowsExactly(scope, a, x);
    ShowsExactly(scope, b, y);
    SameViewExactly(scope, a, b);
  }

  lemma DisagreementConflicts(policy: Policy, scope: Scope, cs: seq<Candidate>, a: Candidate, b: Candidate)
    requires a in cs && b in cs && Granted(policy, scope, a) && Granted(policy, scope, b)
    requires a.fragmentId == b.fragmentId && !SameView(scope, a, b)
    ensures Conflict(PermittedItems(policy, scope, Elems(cs)))
  {
    PermitsByRecord(policy, scope, cs);
    SameViewExactly(scope, a, b);
    ShowsItem(scope, a);
    ShowsItem(scope, b);
    assert ItemOf(scope, a).fragmentId == ItemOf(scope, b).fragmentId;
    hide Granted, PermittedItems, Permitted, Shows, SameView, ItemOf;
  }

  lemma ConflictExactly(policy: Policy, scope: Scope, cs: seq<Candidate>)
    ensures Conflict(PermittedItems(policy, scope, Elems(cs))) <==> Disagree(policy, scope, cs)
  {
    var items := PermittedItems(policy, scope, Elems(cs));
    hide Granted, SameView, PermittedItems, Elems;
    if Conflict(items) {
      var x, y :| x in items && y in items && x != y && x.fragmentId == y.fragmentId;
      ConflictShows(policy, scope, cs, x, y);
    }
    if Disagree(policy, scope, cs) {
      var a, b :| (a in cs && b in cs && Granted(policy, scope, a) && Granted(policy, scope, b) &&
                   a.fragmentId == b.fragmentId && !SameView(scope, a, b));
      DisagreementConflicts(policy, scope, cs, a, b);
    }
  }

  lemma ListedExactly(m: Manifest, policy: Policy, scope: Scope, cs: seq<Candidate>, d: Digests)
    requires ManifestOf(m, scope, PermittedItems(policy, scope, Elems(cs)), d)
    ensures ListsGranted(m.items, policy, scope, cs)
  {
    PermitsByRecord(policy, scope, cs);
    hide Granted, Shows, PermittedItems, StrLeq, StrBefore, Distinct;
    DistinctIndices(Map(ItemFragment, m.items));
    forall i, j | 0 <= i < j < |m.items| ensures StrBefore(m.items[i].fragmentId, m.items[j].fragmentId) {
      assert ItemLeq(m.items[i], m.items[j]) && Map(ItemFragment, m.items)[i] != Map(ItemFragment, m.items)[j];
      StrBeforeExactly(m.items[i].fragmentId, m.items[j].fragmentId);
    }
    forall x ensures x in m.items <==> x in PermittedItems(policy, scope, Elems(cs)) { assert x in m.items <==> x in Elems(m.items); }
  }

  // The whole outcome: an error for another Library, a purpose not allowed, or
  // granted candidates that disagree, in this order; else the manifest of what is
  // granted, its token, and whether policy alone withheld something.
  lemma CompiledExactly(policy: Policy, scope: Scope, cs: seq<Candidate>, d: Digests, r: Result<Compiled, AccessError>)
    requires CompilesTo(policy, scope, Elems(cs), d, r)
    ensures
      if policy.libraryId != scope.libraryId then r == Err(LibraryMismatch)
      else if scope.purpose !in policy.allowedPurposes then r == Err(PurposeNotAllowed)
      else if Disagree(policy, scope, cs) then r == Err(ConflictingMetadata)
      else
        r.Ok? &&
        var m, t := r.value.manifest, r.value.token;
        m.libraryId == t.libraryId == scope.libraryId && m.snapshotHash == t.snapshotHash == scope.snapshotHash &&
        ListsGranted(m.items, policy, scope, cs) &&
        m.setHash == t.setHash == d.permittedSet(scope.libraryId, scope.snapshotHash, m.items) &&
        t.policyHash == d.policy(policy) && t.exclusionHash == d.scope(scope) &&
        (r.value.policyOmission <==> SomeWithheld(policy, scope, cs))
  {
    ConflictExactly(policy, scope, cs);
    PermitsByRecord(policy, scope, cs);
    hide Conflict, Disagree, PermittedItems, Withheld, SomeWithheld, ListsGranted, Granted, Permitted, Shows;
    if r.Ok? { ListedExactly(r.value.manifest, policy, scope, cs, d); }
    hide Sorted;
  }
}
