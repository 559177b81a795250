// The schema 1.0 router read off the manifest's records: scores, choices and the
// contents of the packet.

module LexicalRecords {
  import opened Common
  import opened Ordering
  import opened AtlasModels
  import opened RouteGraph
  import opened RoutePacket
  import opened LexicalRouter
  import opened LexicalRouteTheorems

  // -------------------------------------------------------------------- scores

  // How many query terms a text shares.
  function Shared(terms: string -> set<string>, query: set<string>, text: string): nat {
    |query * terms(text)|
  }

  function QuestionScore(terms: string -> set<string>, query: set<string>, x: Question): nat {
    6 * Shared(terms, query, x.prompt) + 5 * Shared(terms, query, JoinTags(x.tags)) +
    2 * Shared(terms, query, x.shortAnswer) + 1 * Shared(terms, query, x.gap)
  }

  function HypothesisScore(terms: string -> set<string>, query: set<string>, x: Hypothesis): nat {
    5 * Shared(terms, query, x.title) + 2 * Shared(terms, query, x.synthesis) + 1 * Shared(terms, query, x.gap)
  }

  function EventScore(terms: string -> set<string>, query: set<string>, x: TimelineEvent): nat {
    5 * Shared(terms, query, x.title) + 2 * Shared(terms, query, x.summary) + 4 * Shared(terms, query, x.dateLabel)
  }

  function GapScore(terms: string -> set<string>, query: set<string>, x: Gap): nat {
    5 * Shared(terms, query, x.gapLabel) + 2 * Shared(terms, query, x.whyItMatters) + 2 * Shared(terms, query, x.nextEvidence)
  }

  // Higher score first, then the smaller ID.
  ghost predicate Outranks(a: Ranked, b: Ranked) {
    a.score > b.score || (a.score == b.score && StrBefore(a.id, b.id))
  }

  ghost predicate InRankOrder(ranked: seq<Ranked>) {
    forall i, j :: 0 <= i < j < |ranked| ==> Outranks(ranked[i], ranked[j])
  }

  lemma ScoreOne(terms: string -> set<string>, query: set<string>, fields: seq<Field>, f: Field)
    ensures Score(terms, query, fields + [f]) == Score(terms, query, fields) + f.weight * Shared(terms, query, f.value)
    ensures Matched(terms, query, fields + [f]) == Matched(terms, query, fields) + query * terms(f.value)
  {
    assert (fields + [f])[..|fields|] == fields;
  }

  lemma ScoreNone(terms: string -> set<string>, query: set<string>)
    ensures Score(terms, query, []) == 0 && Matched(terms, query, []) == {}
  {
  }

  lemma ScoreThree(terms: string -> set<string>, query: set<string>, a: Field, b: Field, c: Field)
    ensures Score(terms, query, [a, b, c]) ==
            a.weight * Shared(terms, query, a.value) + b.weight * Shared(terms, query, b.value) + c.weight * Shared(terms, query, c.value)
    ensures Matched(terms, query, [a, b, c]) == query * terms(a.value) + query * terms(b.value) + query * terms(c.value)
  {
    hide Score, Matched, Shared;
    ScoreNone(terms, query);
    ScoreOne(terms, query, [], a);
    ScoreOne(terms, query, [a], b);
    ScoreOne(terms, query, [a, b], c);
    assert [] + [a] == [a] && [a] + [b] == [a, b] && [a, b] + [c] == [a, b, c];
  }

  lemma QuestionScored(terms: string -> set<string>, query: set<string>, x: Question)
    ensures RankRecord(terms, query, ScoredQuestion(x)) ==
            Ranked(QuestionScore(terms, query, x), x.questionId,
                   query * terms(x.prompt) + query * terms(JoinTags(x.tags)) + query * terms(x.shortAnswer) + query * terms(x.gap))
  {
    var a, b, c, d := Field(x.prompt, 6), Field(JoinTags(x.tags), 5), Field(x.shortAnswer, 2), Field(x.gap, 1);
    hide Score, Matched, Shared, JoinTags;
    ScoreThree(terms, query, a, b, c);
    ScoreOne(terms, query, [a, b, c], d);
    assert [a, b, c] + [d] == [a, b, c, d];
  }

  lemma HypothesisScored(terms: string -> set<string>, query: set<string>, x: Hypothesis)
    ensures RankRecord(terms, query, ScoredHypothesis(x)) ==
            Ranked(HypothesisScore(terms, query, x), x.hypothesisId,
                   query * terms(x.title) + query * terms(x.synthesis) + query * terms(x.gap))
  {
    hide Score, Matched, Shared;
    ScoreThree(terms, query, Field(x.title, 5), Field(x.synthesis, 2), Field(x.gap, 1));
  }

  lemma EventScored(terms: string -> set<string>, query: set<string>, x: TimelineEvent)
    ensures RankRecord(terms, query, ScoredEvent(x)) ==
            Ranked(EventScore(terms, query, x), x.eventId,
                   query * terms(x.title) + query * terms(x.summary) + query * terms(x.dateLabel))
  {
    hide Score, Matched, Shared;
    ScoreThree(terms, query, Field(x.title, 5), Field(x.summary, 2), Field(x.dateLabel, 4));
  }

  lemma GapScored(terms: string -> set<string>, query: set<string>, x: Gap)
    ensures RankRecord(terms, query, ScoredGap(x)) ==
            Ranked(GapScore(terms, query, x), x.gapId,
                   query * terms(x.gapLabel) + query * terms(x.whyItMatters) + query * terms(x.nextEvidence))
  {
    hide Score, Matched, Shared;
    ScoreThree(terms, query, Field(x.gapLabel, 5), Field(x.whyItMatters, 2), Field(x.nextEvidence, 2));
  }

  // Which records are ranked: those with a positive score, best first.
  ghost predicate RanksQuestions(ranked: seq<Ranked>, m: ManifestData, terms: string -> set<string>, query: set<string>) {
    InRankOrder(ranked) &&
    forall r :: r in ranked <==>
      exists x :: x in m.questions && r.id == x.questionId && r.score == QuestionScore(terms, query, x) > 0 &&
        r.terms == query * terms(x.prompt) + query * terms(JoinTags(x.tags)) + query * terms(x.shortAnswer) + query * terms(x.gap)
  }

  ghost predicate RanksHypotheses(ranked: seq<Ranked>, m: ManifestData, terms: string -> set<string>, query: set<string>) {
    InRankOrder(ranked) &&
    forall r :: r in ranked <==>
      exists x :: x in m.hypotheses && r.id == x.hypothesisId && r.score == HypothesisScore(terms, query, x) > 0 &&
        r.terms == query * terms(x.title) + query * terms(x.synthesis) + query * terms(x.gap)
  }

  ghost predicate RanksEvents(ranked: seq<Ranked>, m: ManifestData, terms: string -> set<string>, query: set<string>) {
    InRankOrder(ranked) &&
    forall r :: r in ranked <==>
      exists x :: x in m.timeline && r.id == x.eventId && r.score == EventScore(terms, query, x) > 0 &&
        r.terms == query * terms(x.title) + query * terms(x.summary) + query * terms(x.dateLabel)
  }

  ghost predicate RanksGaps(ranked: seq<Ranked>, m: ManifestData, terms: string -> set<string>, query: set<string>) {
    InRankOrder(ranked) &&
    forall r :: r in ranked <==>
      exists x :: x in m.gaps && r.id == x.gapId && r.score == GapScore(terms, query, x) > 0 &&
        r.terms == query * terms(x.gapLabel) + query * terms(x.whyItMatters) + query * terms(x.nextEvidence)
  }

  predicate FreshIds(hits: seq<Ranked>, ids: seq<Id>) {
    Distinct(Map(RankedId, hits)) && Elems(Map(RankedId, hits)) <= Elems(ids)
  }

  lemma OneMoreId(hits: seq<Ranked>, hit: Ranked, ids: seq<Id>)
    requires FreshIds(hits, ids) && Distinct(ids + [hit.id])
    ensures FreshIds(hits, ids + [hit.id]) && FreshIds(hits + [hit], ids + [hit.id])
  {
    DistinctSnoc(ids, hit.id);
    assert hit.id !in Elems(ids) && hit.id !in Map(RankedId, hits);
    MapConcat(RankedId, hits, [hit]);
    assert Map(RankedId, [hit]) == [hit.id];
    DistinctSnoc(Map(RankedId, hits), hit.id);
  }

  lemma DistinctFront(ids: seq<Id>)
    requires Distinct(ids) && ids != []
    ensures Distinct(ids[..|ids| - 1]) && ids == ids[..|ids| - 1] + [ids[|ids| - 1]]
  {
    assert ids == ids[..|ids| - 1] + [ids[|ids| - 1]];
    DistinctSnoc(ids[..|ids| - 1], ids[|ids| - 1]);
  }

  lemma {:induction false} HitIds(terms: string -> set<string>, query: set<string>, records: seq<Scored>, ids: seq<Id>)
    requires |ids| == |records| && Distinct(ids) && forall i :: 0 <= i < |ids| ==> ids[i] == records[i].id
    ensures FreshIds(Hits(terms, query, records), ids)
  {
    if records == [] {
      NoHits(terms, query, ids);
    } else {
      var n := |records| - 1;
      hide Distinct, FreshIds, Score, Matched;
      DistinctFront(ids);
      HitIds(terms, query, records[..n], ids[..n]);
      OneMoreId(Hits(terms, query, records[..n]), RankRecord(terms, query, records[n]), ids[..n]);
      assert Hits(terms, query, records[..n]) + [] == Hits(terms, query, records[..n]);
    }
  }

  lemma NoHits(terms: string -> set<string>, query: set<string>, ids: seq<Id>)
    ensures FreshIds(Hits(terms, query, []), ids)
  {
    assert Map(RankedId, Hits(terms, query, [])) == [];
  }

  lemma SortedOutranks(ranked: seq<Ranked>)
    requires Sorted(RankedLeq, ranked) && Distinct(Map(RankedId, ranked))
    ensures InRankOrder(ranked)
  {
    DistinctIndices(Map(RankedId, ranked));
    hide Distinct, StrLeq, StrBefore;
    forall i, j | 0 <= i < j < |ranked| ensures Outranks(ranked[i], ranked[j]) {
      assert RankedLeq(ranked[i], ranked[j]) && Map(RankedId, ranked)[i] != Map(RankedId, ranked)[j];
      StrBeforeExactly(ranked[i].id, ranked[j].id);
    }
  }

  lemma RankingInOrder<T>(terms: string -> set<string>, query: set<string>, items: seq<T>, scored: T -> Scored, key: T -> Id)
    requires UniqueBy(items, key) && forall i :: 0 <= i < |items| ==> scored(items[i]).id == key(items[i])
    ensures InRankOrder(Sort(RankedLeq, Hits(terms, query, Map(scored, items))))
  {
    var hits := Hits(terms, query, Map(scored, items));
    HitIds(terms, query, Map(scored, items), Map(key, items));
    assert Distinct(Map(RankedId, hits));
    hide Hits, Distinct, Sort, RankedLeq, TotalPreorder;
    RankedLeqIsTotalPreorder();
    SortCorrect(RankedLeq, hits);
    MapPermutes(RankedId, Sort(RankedLeq, hits), hits);
    DistinctByMultiset(Map(RankedId, Sort(RankedLeq, hits)), Map(RankedId, hits));
    SortedOutranks(Sort(RankedLeq, hits));
  }

  lemma RanksExactly<T(!new)>(terms: string -> set<string>, query: set<string>, items: seq<T>, scored: T -> Scored)
    ensures forall r :: r in Sort(RankedLeq, Hits(terms, query, Map(scored, items))) <==>
              exists x :: x in items && r == RankRecord(terms, query, scored(x)) && r.score > 0
  {
    RankingIsExact(terms, Map(scored, items), query);
    hide Hits, Sort, RankRecord;
    forall r
      ensures (exists y :: y in Map(scored, items) && r == RankRecord(terms, query, y) && r.score > 0) <==>
              exists x :: x in items && r == RankRecord(terms, query, scored(x)) && r.score > 0
    {
      if y :| y in Map(scored, items) && r == RankRecord(terms, query, y) && r.score > 0 {
        var i :| 0 <= i < |items| && Map(scored, items)[i] == y;
        assert items[i] in items && scored(items[i]) == y;
      }
      if x :| x in items && r == RankRecord(terms, query, scored(x)) && r.score > 0 {
        var i :| 0 <= i < |items| && items[i] == x;
        assert Map(scored, items)[i] in Map(scored, items);
      }
    }
  }

  // The four rankings hold exactly the records with a positive score, best first.
  lemma ScoresExactly(m: ManifestData, terms: string -> set<string>, query: set<string>)
    requires UniqueIds(m)
    ensures
      var s := ScoresFor(m, terms, query);
      RanksQuestions(s.questions, m, terms, query) && RanksHypotheses(s.hypotheses, m, terms, query) &&
      RanksEvents(s.events, m, terms, query) && RanksGaps(s.gaps, m, terms, query)
  {
    QuestionsRanked(m, terms, query);
    HypothesesRanked(m, terms, query);
    EventsRanked(m, terms, query);
    GapsRanked(m, terms, query);
    hide RanksQuestions, RanksHypotheses, RanksEvents, RanksGaps, Hits, Sort;
  }

  lemma QuestionsRanked(m: ManifestData, terms: string -> set<string>, query: set<string>)
    requires UniqueIds(m)
    ensures RanksQuestions(Sort(RankedLeq, Hits(terms, query, Map(ScoredQuestion, m.questions))), m, terms, query)
  {
    RankingInOrder(terms, query, m.questions, ScoredQuestion, QuestionKey);
    RanksExactly(terms, query, m.questions, ScoredQuestion);
    hide UniqueIds, InRankOrder, Hits, Sort, RankRecord, ScoredQuestion, QuestionScore, Map, JoinTags;
    forall x: Question ensures RankRecord(terms, query, ScoredQuestion(x)) ==
      Ranked(QuestionScore(terms, query, x), x.questionId,
             query * terms(x.prompt) + query * terms(JoinTags(x.tags)) + query * terms(x.shortAnswer) + query * terms(x.gap))
    {
      QuestionScored(terms, query, x);
    }
  }

  lemma HypothesesRanked(m: ManifestData, terms: string -> set<string>, query: set<string>)
    requires UniqueIds(m)
    ensures RanksHypotheses(Sort(RankedLeq, Hits(terms, query, Map(ScoredHypothesis, m.hypotheses))), m, terms, query)
  {
    RankingInOrder(terms, query, m.hypotheses, ScoredHypothesis, HypothesisKey);
    RanksExactly(terms, query, m.hypotheses, ScoredHypothesis);
    hide UniqueIds, InRankOrder, Hits, Sort, RankRecord, ScoredHypothesis, HypothesisScore, Map;
    forall x: Hypothesis ensures RankRecord(terms, query, ScoredHypothesis(x)) ==
      Ranked(HypothesisScore(terms, query, x), x.hypothesisId,
             query * terms(x.title) + query * terms(x.synthesis) + query * terms(x.gap))
    {
      HypothesisScored(terms, query, x);
    }
  }

  lemma EventsRanked(m: ManifestData, terms: string -> set<string>, query: set<string>)
    requires UniqueIds(m)
    ensures RanksEvents(Sort(RankedLeq, Hits(terms, query, Map(ScoredEvent, m.timeline))), m, terms, query)
  {
    RankingInOrder(terms, query, m.timeline, ScoredEvent, TimelineEventKey);
    RanksExactly(terms, query, m.timeline, ScoredEvent);
    hide UniqueIds, InRankOrder, Hits, Sort, RankRecord, ScoredEvent, EventScore, Map;
    forall x: TimelineEvent ensures RankRecord(terms, query, ScoredEvent(x)) ==
      Ranked(EventScore(terms, query, x), x.eventId,
             query * terms(x.title) + query * terms(x.summary) + query * terms(x.dateLabel))
    {
      EventScored(terms, query, x);
    }
  }

  lemma GapsRanked(m: ManifestData, terms: string -> set<string>, query: set<string>)
    requires UniqueIds(m)
    ensures RanksGaps(Sort(RankedLeq, Hits(terms, query, Map(ScoredGap, m.gaps))), m, terms, query)
  {
    RankingInOrder(terms, query, m.gaps, ScoredGap, GapKey);
    RanksExactly(terms, query, m.gaps, ScoredGap);
    hide UniqueIds, InRankOrder, Hits, Sort, RankRecord, ScoredGap, GapScore, Map;
    forall x: Gap ensures RankRecord(terms, query, ScoredGap(x)) ==
      Ranked(GapScore(terms, query, x), x.gapId,
             query * terms(x.gapLabel) + query * terms(x.whyItMatters) + query * terms(x.nextEvidence))
    {
      GapScored(terms, query, x);
    }
  }

  // " ".join(tags)
  lemma {:induction false} TagsJoined(tags: seq<string>, t: string)
    ensures JoinTags([]) == "" && JoinTags([t]) == t
    ensures tags != [] ==> JoinTags(tags + [t]) == JoinTags(tags) + " " + t
  {
    if |tags| > 1 {
      TagsJoined(tags[1..], t);
      assert (tags + [t])[1..] == tags[1..] + [t];
    }
  }

  // ------------------------------------------------------------------- choices

  // The first of them up to the limit, so that none left out outranks one chosen.
  ghost predicate BestOf(chosen: set<Id>, ranked: seq<Ranked>, limit: nat) {
    (forall id :: id in chosen ==> exists r :: r in ranked && r.id == id) && |chosen| <= limit &&
    (forall r :: r in ranked && r.id !in chosen ==> |chosen| == limit) &&
    forall r, x :: r in ranked && x in ranked && r.id in chosen && x.id !in chosen ==> Outranks(r, x)
  }

  lemma DistinctIds(ranked: seq<Ranked>)
    requires InRankOrder(ranked)
    ensures Distinct(Map(RankedId, ranked)) ==> forall i, j :: 0 <= i < j < |ranked| ==> ranked[i].id != ranked[j].id
  {
    DistinctIndices(Map(RankedId, ranked));
    hide Distinct;
    if Distinct(Map(RankedId, ranked)) {
      forall i, j | 0 <= i < j < |ranked| ensures ranked[i].id != ranked[j].id {
        assert Map(RankedId, ranked)[i] != Map(RankedId, ranked)[j];
      }
    }
  }

  lemma FirstIds(ranked: seq<Ranked>, n: nat, id: Id)
    requires n <= |ranked|
    ensures id in Elems(Map(RankedId, ranked[..n])) <==> exists i :: 0 <= i < n && ranked[i].id == id
  {
    var top := ranked[..n];
    if id in Elems(Map(RankedId, top)) {
      var i :| 0 <= i < n && Map(RankedId, top)[i] == id;
      assert ranked[i].id == id;
    }
    if i :| 0 <= i < n && ranked[i].id == id { assert Map(RankedId, top)[i] == id; }
  }

  // The chosen are the first `n`.
  ghost predicate FirstOf(chosen: set<Id>, ranked: seq<Ranked>, n: nat) {
    n <= |ranked| && |chosen| == n && forall id :: id in chosen <==> exists i :: 0 <= i < n && ranked[i].id == id
  }

  lemma FirstAreBest(chosen: set<Id>, ranked: seq<Ranked>, n: nat, limit: nat)
    requires FirstOf(chosen, ranked, n) && n == (if |ranked| <= limit then |ranked| else limit)
    requires InRankOrder(ranked) && forall i, j :: 0 <= i < j < |ranked| ==> ranked[i].id != ranked[j].id
    ensures BestOf(chosen, ranked, limit)
  {
    hide Outranks;
    forall r, x | r in ranked && x in ranked && r.id in chosen && x.id !in chosen ensures Outranks(r, x) {
      var k :| 0 <= k < |ranked| && ranked[k] == r;
      var j :| 0 <= j < |ranked| && ranked[j] == x;
      var i :| 0 <= i < n && ranked[i].id == r.id;
      assert i == k && n <= j;
    }
    forall r | r in ranked && r.id !in chosen ensures |chosen| == limit {
      var j :| 0 <= j < |ranked| && ranked[j] == r;
    }
  }

  lemma TopQuestionsExactly(ranked: seq<Ranked>, limit: nat)
    requires InRankOrder(ranked) && Distinct(Map(RankedId, ranked))
    ensures BestOf(TopQuestions(ranked, limit), ranked, limit)
    ensures |TopQuestions(ranked, limit)| == if |ranked| <= limit then |ranked| else limit
  {
    var n := if |ranked| <= limit then |ranked| else limit;
    hide *;
    TopIs(ranked, limit);
    DistinctIds(ranked);
    TopCount(ranked, n);
    FirstOfIs(ranked, n);
    FirstAreBest(TopQuestions(ranked, limit), ranked, n, limit);
  }

  lemma TopIs(ranked: seq<Ranked>, limit: nat)
    ensures TopQuestions(ranked, limit) == Elems(Map(RankedId, ranked[..if |ranked| <= limit then |ranked| else limit]))
  {
    hide Elems, Map;
    assert ranked[..|ranked|] == ranked;
  }

  lemma FirstOfIs(ranked: seq<Ranked>, n: nat)
    requires n <= |ranked| && |Elems(Map(RankedId, ranked[..n]))| == n
    ensures FirstOf(Elems(Map(RankedId, ranked[..n])), ranked, n)
  {
    hide Elems, Map;
    forall id ensures id in Elems(Map(RankedId, ranked[..n])) <==> exists i :: 0 <= i < n && ranked[i].id == id {
      FirstIds(ranked, n, id);
    }
  }

  lemma PrefixDistinct(ids: seq<Id>, n: nat)
    requires n <= |ids| && Distinct(ids)
    ensures |Elems(ids[..n])| == n
  {
    assert ids == ids[..n] + ids[n..];
    DistinctConcat(ids[..n], ids[n..]);
  }

  lemma TopCount(ranked: seq<Ranked>, n: nat)
    requires n <= |ranked| && Distinct(Map(RankedId, ranked))
    ensures |Elems(Map(RankedId, ranked[..n]))| == n
  {
    hide Distinct, Elems, Map;
    PrefixDistinct(Map(RankedId, ranked), n);
    assert Map(RankedId, ranked)[..n] == Map(RankedId, ranked[..n]);
  }

  // ---------------------------------------------------------- capped choices

  ghost predicate Seen(all: seq<Id>, i: nat, id: Id)
    requires i <= |all|
  {
    exists h :: 0 <= h < i && all[h] == id
  }

  lemma SeenLonger(front: seq<Id>, last: Id, i: nat, j: nat, id: Id)
    requires i <= |front| && i <= j <= |front| + 1 && Seen(front, i, id)
    ensures Seen(front + [last], j, id)
  {
    var h :| 0 <= h < i && front[h] == id;
    assert (front + [last])[h] == id;
  }

  lemma UniqueStep(all: seq<Id>)
    requires all != []
    ensures
      var front, last := all[..|all| - 1], all[|all| - 1];
      all == front + [last] &&
      StableUnique(all) == if last in front then StableUnique(front) else StableUnique(front) + [last]
  {
  }

  // Each value is listed once, behind only what came before its first occurrence.
  lemma {:induction false} FirstDistinct(all: seq<Id>, i: nat) returns (k: nat)
    requires i < |all|
    ensures k < |StableUnique(all)| && StableUnique(all)[k] == all[i]
    ensures forall j :: 0 <= j < k ==> Seen(all, i, StableUnique(all)[j])
    decreases |all|
  {
    var n := |all| - 1;
    var front, last := all[..n], all[n];
    var unique := StableUnique(front);
    UniqueStep(all);
    assert forall id :: id in unique ==> id in front by {
      forall id | id in unique ensures id in front { assert id in Elems(unique) && id in Elems(front); }
    }
    hide StableUnique, Seen;
    var from := if i < n then i else n;
    if i < n {
      k := FirstDistinct(front, i);
    } else if last in front {
      from :| 0 <= from < n && front[from] == last;
      k := FirstDistinct(front, from);
    } else {
      k := |unique|;
      forall j | 0 <= j < k ensures Seen(front, n, unique[j]) { AllSeen(front, unique[j]); }
    }
    forall j | 0 <= j < k ensures Seen(all, i, StableUnique(all)[j]) { SeenLonger(front, last, from, i, unique[j]); }
  }

  lemma AllSeen(front: seq<Id>, id: Id)
    requires id in front
    ensures Seen(front, |front|, id)
  {
  }

  lemma LeftOutBehind(all: seq<Id>, limit: nat, i: nat, id: Id)
    requires i < |all| && all[i] !in Elems(Take(StableUnique(all), limit))
    requires id in Elems(Take(StableUnique(all), limit))
    ensures exists h :: 0 <= h < i && all[h] == id
  {
    var k := FirstDistinct(all, i);
    var unique := StableUnique(all);
    assert unique[k] == all[i];
    hide StableUnique;
    var taken := Take(unique, limit);
    var j :| 0 <= j < |taken| && taken[j] == id;
    assert forall l :: 0 <= l < |taken| ==> taken[l] in Elems(taken) && taken[l] == unique[l];
    assert j < k && unique[j] == id;
    assert Seen(all, i, id);
  }

  lemma TakenCount(all: seq<Id>, limit: nat)
    ensures
      var chosen := Elems(Take(StableUnique(all), limit));
      chosen <= Elems(all) && |chosen| <= limit && (|chosen| < limit ==> chosen == Elems(all))
  {
    var unique := StableUnique(all);
    var n := if |unique| <= limit then |unique| else limit;
    assert Elems(unique) == Elems(all) && Distinct(unique);
    hide StableUnique;
    assert unique == unique[..n] + unique[n..];
    DistinctConcat(unique[..n], unique[n..]);
    assert Take(unique, limit) == unique[..n];
    if n == |unique| { assert unique[..n] == unique; }
  }

  lemma {:induction false} FilterInRankOrder(p: Ranked -> bool, ranked: seq<Ranked>)
    requires InRankOrder(ranked)
    ensures InRankOrder(Filter(p, ranked))
  {
    hide Outranks;
    if ranked != [] {
      FilterInRankOrder(p, ranked[1..]);
      var rest := Filter(p, ranked[1..]);
      forall r | r in rest ensures Outranks(ranked[0], r) {
        var i :| 0 <= i < |ranked| - 1 && ranked[1..][i] == r;
        assert Outranks(ranked[0], ranked[i + 1]);
      }
    }
  }

  // A scored record may be chosen when nothing is selected yet, or when it is linked.
  predicate Eligible(ranked: seq<Ranked>, free: bool, linked: seq<Id>, r: Ranked) {
    r in ranked && (free || r.id in linked)
  }

  ghost predicate EligibleId(ranked: seq<Ranked>, free: bool, linked: seq<Id>, id: Id) {
    exists r :: Eligible(ranked, free, linked, r) && r.id == id
  }

  // No eligible scored record is passed over for a lower one or for one that is only
  // linked, no linked one for a later linked one, and none while there is room.
  ghost predicate ChosenFrom(chosen: set<Id>, ranked: seq<Ranked>, free: bool, linked: seq<Id>, limit: nat) {
    |chosen| <= limit &&
    (forall id :: id in chosen ==> id in linked || EligibleId(ranked, free, linked, id)) &&
    (|chosen| < limit ==> forall id :: id in linked || EligibleId(ranked, free, linked, id) ==> id in chosen) &&
    (forall x, id :: Eligible(ranked, free, linked, x) && x.id !in chosen && id in chosen ==>
      exists r :: Eligible(ranked, free, linked, r) && r.id == id && Outranks(r, x)) &&
    forall l, id :: 0 <= l < |linked| && linked[l] !in chosen && id in chosen ==>
      EligibleId(ranked, free, linked, id) || id in linked[..l]
  }

  lemma PrimaryIs(ranked: seq<Ranked>, free: bool, linked: seq<Id>) returns (kept: seq<Ranked>)
    requires InRankOrder(ranked)
    ensures Primary(ranked, free, Elems(linked)) == Map(RankedId, kept) && InRankOrder(kept)
    ensures forall r :: r in kept <==> Eligible(ranked, free, linked, r)
  {
    var p := (r: Ranked) => free || r.id in Elems(linked);
    kept := Filter(p, ranked);
    hide InRankOrder;
    FilterInRankOrder(p, ranked);
  }

  lemma CappedIs(ranked: seq<Ranked>, free: bool, linked: seq<Id>, limit: nat)
    ensures Capped(ranked, free, linked, limit) == Elems(Take(StableUnique(Primary(ranked, free, Elems(linked)) + linked), limit))
  {
  }

  function FirstIdsOf(kept: seq<Ranked>, linked: seq<Id>, limit: nat): set<Id> {
    Elems(Take(StableUnique(Map(RankedId, kept) + linked), limit))
  }

  lemma ScoredLeftOut(kept: seq<Ranked>, linked: seq<Id>, limit: nat, x: Ranked, id: Id)
    requires InRankOrder(kept) && x in kept && x.id !in FirstIdsOf(kept, linked, limit) && id in FirstIdsOf(kept, linked, limit)
    ensures exists r :: r in kept && r.id == id && Outranks(r, x)
  {
    hide Outranks, StableUnique, Take, Elems, Map;
    var ids := Map(RankedId, kept);
    var i :| 0 <= i < |kept| && kept[i] == x;
    assert (ids + linked)[i] == x.id;
    LeftOutBehind(ids + linked, limit, i, id);
    var h :| 0 <= h < i && (ids + linked)[h] == id;
    assert kept[h] in kept && Outranks(kept[h], kept[i]);
  }

  lemma LinkedLeftOut(kept: seq<Ranked>, linked: seq<Id>, limit: nat, l: nat, id: Id)
    requires l < |linked| && linked[l] !in FirstIdsOf(kept, linked, limit) && id in FirstIdsOf(kept, linked, limit)
    ensures (exists r :: r in kept && r.id == id) || id in linked[..l]
  {
    hide StableUnique, Take, Elems, Map;
    var ids := Map(RankedId, kept);
    assert (ids + linked)[|ids| + l] == linked[l];
    LeftOutBehind(ids + linked, limit, |ids| + l, id);
    var h :| 0 <= h < |ids| + l && (ids + linked)[h] == id;
    if h < |ids| { assert kept[h] in kept; } else { assert linked[..l][h - |ids|] == id; }
  }

  lemma CappedExactly(ranked: seq<Ranked>, free: bool, linked: seq<Id>, limit: nat)
    requires InRankOrder(ranked)
    ensures ChosenFrom(Capped(ranked, free, linked, limit), ranked, free, linked, limit)
  {
    var kept := PrimaryIs(ranked, free, linked);
    CappedIs(ranked, free, linked, limit);
    var chosen := Capped(ranked, free, linked, limit);
    assert chosen == FirstIdsOf(kept, linked, limit);
    CappedCount(ranked, free, linked, kept, limit);
    hide Capped, Primary, Eligible, Outranks, FirstIdsOf, InRankOrder, EligibleId;
    forall x, id | Eligible(ranked, free, linked, x) && x.id !in chosen && id in chosen
      ensures exists r :: Eligible(ranked, free, linked, r) && r.id == id && Outranks(r, x)
    {
      ScoredLeftOut(kept, linked, limit, x, id);
    }
    forall l, id | 0 <= l < |linked| && linked[l] !in chosen && id in chosen
      ensures EligibleId(ranked, free, linked, id) || id in linked[..l]
    {
      LinkedLeftOut(kept, linked, limit, l, id);
      if r :| r in kept && r.id == id { assert EligibleId(ranked, free, linked, id) by { ItsId(ranked, free, linked, r); } }
    }
  }

  lemma ItsId(ranked: seq<Ranked>, free: bool, linked: seq<Id>, r: Ranked)
    requires Eligible(ranked, free, linked, r)
    ensures EligibleId(ranked, free, linked, r.id)
  {
  }

  lemma CappedCount(ranked: seq<Ranked>, free: bool, linked: seq<Id>, kept: seq<Ranked>, limit: nat)
    requires forall r :: r in kept <==> Eligible(ranked, free, linked, r)
    ensures
      var chosen := FirstIdsOf(kept, linked, limit);
      |chosen| <= limit && (forall id :: id in chosen ==> id in linked || EligibleId(ranked, free, linked, id)) &&
      (|chosen| < limit ==> forall id :: id in linked || EligibleId(ranked, free, linked, id) ==> id in chosen)
  {
    var all := Map(RankedId, kept) + linked;
    TakenCount(all, limit);
    hide Eligible, StableUnique, Take, EligibleId, Map;
    forall id ensures id in Elems(all) <==> id in linked || EligibleId(ranked, free, linked, id) {
      InEither(ranked, free, linked, kept, id);
    }
    hide Elems;
  }

  lemma InEither(ranked: seq<Ranked>, free: bool, linked: seq<Id>, kept: seq<Ranked>, id: Id)
    requires forall r :: r in kept <==> Eligible(ranked, free, linked, r)
    ensures id in Map(RankedId, kept) + linked <==> id in linked || EligibleId(ranked, free, linked, id)
  {
    var ids := Map(RankedId, kept);
    hide Eligible;
    if id in ids {
      var i :| 0 <= i < |ids| && ids[i] == id;
      assert kept[i] in kept;
    }
    if r :| Eligible(ranked, free, linked, r) && r.id == id {
      var i :| 0 <= i < |kept| && kept[i] == r;
      assert ids[i] == id;
    }
  }

  // ------------------------------------------------------- choices by record

  ghost predicate LinkedId<T(!new)>(items: seq<T>, key: T -> Id, linked: T -> bool, id: Id) {
    exists x :: x in items && linked(x) && key(x) == id
  }

  // A scored record that may be chosen.
  ghost predicate MayTake<T(!new)>(ranked: seq<Ranked>, free: bool, items: seq<T>, key: T -> Id, linked: T -> bool, r: Ranked) {
    r in ranked && (free || LinkedId(items, key, linked, r.id))
  }

  ghost predicate MayTakeId<T(!new)>(ranked: seq<Ranked>, free: bool, items: seq<T>, key: T -> Id, linked: T -> bool, id: Id) {
    exists r :: MayTake(ranked, free, items, key, linked, r) && r.id == id
  }

  // A record is chosen only when it is linked or may be taken for its score, and all
  // are while there is room. None is passed over for one of lower rank or for one
  // that is only linked, and no linked one for a later one of the manifest.
  ghost predicate ChoosesRecords<T(!new)>(
    chosen: set<Id>, ranked: seq<Ranked>, free: bool, items: seq<T>, key: T -> Id, linked: T -> bool, limit: nat)
  {
    |chosen| <= limit &&
    (forall id :: id in chosen ==> LinkedId(items, key, linked, id) || MayTakeId(ranked, free, items, key, linked, id)) &&
    (|chosen| < limit ==>
      forall id :: LinkedId(items, key, linked, id) || MayTakeId(ranked, free, items, key, linked, id) ==> id in chosen) &&
    (forall x, id :: MayTake(ranked, free, items, key, linked, x) && x.id !in chosen && id in chosen ==>
      exists r :: MayTake(ranked, free, items, key, linked, r) && r.id == id && Outranks(r, x)) &&
    forall i, id :: 0 <= i < |items| && linked(items[i]) && key(items[i]) !in chosen && id in chosen ==>
      MayTakeId(ranked, free, items, key, linked, id) || LinkedId(items[..i], key, linked, id)
  }

  lemma LinkedIds<T(!new)>(items: seq<T>, key: T -> Id, linked: T -> bool, id: Id)
    ensures id in Map(key, Filter(linked, items)) <==> LinkedId(items, key, linked, id)
  {
    var kept := Filter(linked, items);
    if id in Map(key, kept) {
      var i :| 0 <= i < |kept| && Map(key, kept)[i] == id;
      assert kept[i] in kept;
    }
    if x :| x in items && linked(x) && key(x) == id {
      var i :| 0 <= i < |kept| && kept[i] == x;
      assert Map(key, kept)[i] == id;
    }
  }

  // A kept item stands in the filtered list behind only what stood before it.
  lemma KeptAt<T>(p: T -> bool, items: seq<T>, i: nat) returns (l: nat)
    requires i < |items| && p(items[i])
    ensures l < |Filter(p, items)| && Filter(p, items)[l] == items[i]
    ensures Filter(p, items)[..l] == Filter(p, items[..i])
  {
    var before, rest := Filter(p, items[..i]), Filter(p, items[i..]);
    assert items == items[..i] + items[i..];
    FilterConcat(p, items[..i], items[i..]);
    assert rest[0] == items[i];
    hide Filter;
    l := |before|;
    assert (before + rest)[..l] == before;
  }

  lemma ChoiceByRecord<T(!new)>(
    chosen: set<Id>, ranked: seq<Ranked>, free: bool, items: seq<T>, key: T -> Id, linked: T -> bool, limit: nat)
    requires ChosenFrom(chosen, ranked, free, Map(key, Filter(linked, items)), limit)
    ensures ChoosesRecords(chosen, ranked, free, items, key, linked, limit)
  {
    var ids := Map(key, Filter(linked, items));
    forall id ensures id in ids <==> LinkedId(items, key, linked, id) { LinkedIds(items, key, linked, id); }
    hide LinkedId, Outranks, Map, Filter;
    forall r ensures MayTake(ranked, free, items, key, linked, r) <==> Eligible(ranked, free, ids, r) {}
    hide MayTake, Eligible;
    forall id ensures MayTakeId(ranked, free, items, key, linked, id) <==> EligibleId(ranked, free, ids, id) {}
    hide MayTakeId, EligibleId;
    forall i, id | 0 <= i < |items| && linked(items[i]) && key(items[i]) !in chosen && id in chosen
      ensures MayTakeId(ranked, free, items, key, linked, id) || LinkedId(items[..i], key, linked, id)
    {
      var l := KeptAt(linked, items, i);
      assert ids[l] == key(items[i]);
      if id in ids[..l] {
        assert ids[..l] == Map(key, Filter(linked, items[..i]));
        LinkedIds(items[..i], key, linked, id);
      }
    }
  }

  lemma {:induction false} FilterSame<T>(p: T -> bool, q: T -> bool, items: seq<T>)
    requires forall x :: x in items ==> p(x) == q(x)
    ensures Filter(p, items) == Filter(q, items)
  {
    if items != [] { FilterSame(p, q, items[1..]); }
  }

  // The four choices: the best questions, then hypotheses that name one of them,
  // then events and gaps that name a chosen question or hypothesis. While nothing is
  // chosen the score alone decides.
  ghost predicate ChoosesWell(m: ManifestData, limits: RouteLimits, s: Scores, c: Chosen) {
    var free := c.questions == {} && c.hypotheses == {};
    BestOf(c.questions, s.questions, limits.maxQuestions) &&
    ChoosesRecords(c.hypotheses, s.hypotheses, c.questions == {}, m.hypotheses, HypothesisKey,
                   (h: Hypothesis) => exists q :: q in h.questionIds && q in c.questions, limits.maxHypotheses) &&
    ChoosesRecords(c.events, s.events, free, m.timeline, TimelineEventKey,
                   (t: TimelineEvent) => (exists q :: q in t.questionIds && q in c.questions) ||
                                         exists h :: h in t.hypothesisIds && h in c.hypotheses, limits.maxEvents) &&
    ChoosesRecords(c.gaps, s.gaps, free, m.gaps, GapKey,
                   (g: Gap) => (exists q :: q in g.relatedQuestionIds && q in c.questions) ||
                               exists h :: h in g.relatedHypothesisIds && h in c.hypotheses, limits.maxGaps)
  }

  lemma HypothesisChoice(m: ManifestData, questions: set<Id>, ranked: seq<Ranked>, limit: nat)
    requires InRankOrder(ranked)
    ensures
      ChoosesRecords(
        Capped(ranked, questions == {}, Map(HypothesisKey, LinkedHypotheses(m, questions)), limit), ranked, questions == {},
        m.hypotheses, HypothesisKey, (h: Hypothesis) => exists q :: q in h.questionIds && q in questions, limit)
  {
    var linked := (h: Hypothesis) => exists q :: q in h.questionIds && q in questions;
    FilterSame(LinkedHypothesis(questions), linked, m.hypotheses);
    hide InRankOrder, Capped, ChosenFrom, ChoosesRecords, Map, Filter;
    CappedExactly(ranked, questions == {}, Map(HypothesisKey, LinkedHypotheses(m, questions)), limit);
    ChoiceByRecord(Capped(ranked, questions == {}, Map(HypothesisKey, LinkedHypotheses(m, questions)), limit), ranked,
                   questions == {}, m.hypotheses, HypothesisKey, linked, limit);
  }

  lemma EventChoice(m: ManifestData, questions: set<Id>, hypotheses: set<Id>, ranked: seq<Ranked>, limit: nat)
    requires InRankOrder(ranked)
    ensures
      var free := questions == {} && hypotheses == {};
      ChoosesRecords(
        Capped(ranked, free, Map(TimelineEventKey, LinkedEvents(m, questions, hypotheses)), limit), ranked, free, m.timeline,
        TimelineEventKey,
        (t: TimelineEvent) => (exists q :: q in t.questionIds && q in questions) || exists h :: h in t.hypothesisIds && h in hypotheses,
        limit)
  {
    var free := questions == {} && hypotheses == {};
    var linked := (t: TimelineEvent) =>
      (exists q :: q in t.questionIds && q in questions) || exists h :: h in t.hypothesisIds && h in hypotheses;
    FilterSame(LinkedEvent(questions, hypotheses), linked, m.timeline);
    hide InRankOrder, Capped, ChosenFrom, ChoosesRecords, Map, Filter;
    CappedExactly(ranked, free, Map(TimelineEventKey, LinkedEvents(m, questions, hypotheses)), limit);
    ChoiceByRecord(Capped(ranked, free, Map(TimelineEventKey, LinkedEvents(m, questions, hypotheses)), limit), ranked, free,
                   m.timeline, TimelineEventKey, linked, limit);
  }

  lemma GapChoice(m: ManifestData, questions: set<Id>, hypotheses: set<Id>, ranked: seq<Ranked>, limit: nat)
    requires InRankOrder(ranked)
    ensures
      var free := questions == {} && hypotheses == {};
      ChoosesRecords(
        Capped(ranked, free, Map(GapKey, LinkedGaps(m, questions, hypotheses)), limit), ranked, free, m.gaps, GapKey,
        (g: Gap) => (exists q :: q in g.relatedQuestionIds && q in questions) || exists h :: h in g.relatedHypothesisIds && h in hypotheses,
        limit)
  {
    var free := questions == {} && hypotheses == {};
    var linked := (g: Gap) =>
      (exists q :: q in g.relatedQuestionIds && q in questions) || exists h :: h in g.relatedHypothesisIds && h in hypotheses;
    FilterSame(LinkedGap(questions, hypotheses), linked, m.gaps);
    hide InRankOrder, Capped, ChosenFrom, ChoosesRecords, Map, Filter;
    CappedExactly(ranked, free, Map(GapKey, LinkedGaps(m, questions, hypotheses)), limit);
    ChoiceByRecord(Capped(ranked, free, Map(GapKey, LinkedGaps(m, questions, hypotheses)), limit), ranked, free,
                   m.gaps, GapKey, linked, limit);
  }

  lemma RankedIdsDiffer(m: ManifestData, terms: string -> set<string>, query: set<string>)
    requires UniqueIds(m)
    ensures Distinct(Map(RankedId, ScoresFor(m, terms, query).questions))
  {
    var hits := Hits(terms, query, Map(ScoredQuestion, m.questions));
    HitIds(terms, query, Map(ScoredQuestion, m.questions), Map(QuestionKey, m.questions));
    assert Distinct(Map(RankedId, hits));
    hide Hits, Distinct, Sort, RankedLeq, TotalPreorder;
    RankedLeqIsTotalPreorder();
    SortCorrect(RankedLeq, hits);
    MapPermutes(RankedId, Sort(RankedLeq, hits), hits);
    DistinctByMultiset(Map(RankedId, Sort(RankedLeq, hits)), Map(RankedId, hits));
  }

  // What the router chooses for a query, before it closes over references.
  lemma ChoiceExactly(m: ManifestData, limits: RouteLimits, terms: string -> set<string>, query: set<string>)
    requires UniqueIds(m)
    ensures var s := ScoresFor(m, terms, query); ChoosesWell(m, limits, s, Choose(m, limits, s))
  {
    var s := ScoresFor(m, terms, query);
    var c := Choose(m, limits, s);
    ScoresExactly(m, terms, query);
    RankedIdsDiffer(m, terms, query);
    hide UniqueIds, ScoresFor, InRankOrder, Distinct, Capped, TopQuestions, LinkedHypotheses, LinkedEvents, LinkedGaps, BestOf,
         ChoosesRecords, Map, QuestionScore, HypothesisScore, EventScore, GapScore;
    TopQuestionsExactly(s.questions, limits.maxQuestions);
    HypothesisChoice(m, c.questions, s.hypotheses, limits.maxHypotheses);
    EventChoice(m, c.questions, c.hypotheses, s.events, limits.maxEvents);
    GapChoice(m, c.questions, c.hypotheses, s.gaps, limits.maxGaps);
  }

  // ------------------------------------------------------------------ closure

  predicate EventNamesQuestion(m: ManifestData, events: set<Id>, id: Id) {
    exists t :: t in m.timeline && t.eventId in events && id in t.questionIds
  }

  predicate EventNamesHypothesis(m: ManifestData, events: set<Id>, id: Id) {
    exists t :: t in m.timeline && t.eventId in events && id in t.hypothesisIds
  }

  predicate GapNamesQuestion(m: ManifestData, gaps: set<Id>, id: Id) {
    exists g :: g in m.gaps && g.gapId in gaps && id in g.relatedQuestionIds
  }

  predicate GapNamesHypothesis(m: ManifestData, gaps: set<Id>, id: Id) {
    exists g :: g in m.gaps && g.gapId in gaps && id in g.relatedHypothesisIds
  }

  predicate HypothesisNamesQuestion(m: ManifestData, hypotheses: set<Id>, id: Id) {
    exists h :: h in m.hypotheses && h.hypothesisId in hypotheses && id in h.questionIds
  }

  // `c` adds to the choice what its events and gaps name, and the questions that its
  // hypotheses name, and nothing else.
  ghost predicate ClosesOver(m: ManifestData, choice: Chosen, c: Chosen) {
    c.events == choice.events && c.gaps == choice.gaps &&
    (forall id :: id in c.hypotheses <==>
      id in choice.hypotheses || EventNamesHypothesis(m, c.events, id) || GapNamesHypothesis(m, c.gaps, id)) &&
    forall id :: id in c.questions <==>
      id in choice.questions || EventNamesQuestion(m, c.events, id) || GapNamesQuestion(m, c.gaps, id) ||
      HypothesisNamesQuestion(m, c.hypotheses, id)
  }

  lemma CloseExactly(m: ManifestData, choice: Chosen)
    ensures ClosesOver(m, choice, Close(m, choice))
  {
    var c := Close(m, choice);
    forall id ensures id in EventHypotheses(m.timeline, c.events) <==> EventNamesHypothesis(m, c.events, id) {}
    forall id ensures id in EventQuestions(m.timeline, c.events) <==> EventNamesQuestion(m, c.events, id) {}
    forall id ensures id in GapHypotheses(m.gaps, c.gaps) <==> GapNamesHypothesis(m, c.gaps, id) {}
    forall id ensures id in GapQuestions(m.gaps, c.gaps) <==> GapNamesQuestion(m, c.gaps, id) {}
    forall id ensures id in HypothesisQuestions(m.hypotheses, c.hypotheses) <==> HypothesisNamesQuestion(m, c.hypotheses, id) {}
    hide HypothesisQuestions, EventQuestions, EventHypotheses, GapQuestions, GapHypotheses,
         EventNamesHypothesis, EventNamesQuestion, GapNamesHypothesis, GapNamesQuestion, HypothesisNamesQuestion;
  }

  // ------------------------------------------------------------------- packets

  ghost predicate PacksQuestions(qs: seq<Question>, m: ManifestData, ids: set<Id>) {
    forall q :: q in qs <==> exists x :: x in m.questions && x.questionId in ids && q == x.(traceSpans := [])
  }

  ghost predicate PacksHypotheses(hs: seq<Hypothesis>, m: ManifestData, ids: set<Id>) {
    forall h :: h in hs <==> exists x :: x in m.hypotheses && x.hypothesisId in ids && h == x.(traceSpans := [])
  }

  ghost predicate PacksLinked(p: LexicalPacket, m: ManifestData, c: Chosen) {
    (forall x :: x in p.timeline <==> x in m.timeline && x.eventId in c.events) &&
    (forall x :: x in p.gaps <==> x in m.gaps && x.gapId in c.gaps) &&
    forall x :: x in p.relations <==>
      x in m.relations && x.sourceHypothesisId in c.hypotheses && x.targetHypothesisId in c.hypotheses
  }

  predicate PackedNames(p: LexicalPacket, id: Id) {
    (exists x :: x in p.questions && id in x.evidenceIds) ||
    (exists x :: x in p.hypotheses && (id in x.evidenceIds || id in x.counterevidenceIds)) ||
    (exists x :: x in p.relations && id in x.evidenceIds) || exists x :: x in p.timeline && id in x.evidenceIds
  }

  // Exactly the evidence that packed records name, and exactly its sources.
  ghost predicate PacksResources(p: LexicalPacket, m: ManifestData) {
    (forall x :: x in p.evidence <==> x in m.evidence && PackedNames(p, x.evidenceId)) &&
    forall x :: x in p.sources <==> x in m.sources && exists e :: e in p.evidence && e.sourceId == x.sourceId
  }

  lemma MapMembers<A, B>(f: A -> B, xs: seq<A>)
    ensures forall y :: y in Map(f, xs) <==> exists x :: x in xs && f(x) == y
  {
    MapElems(f, xs);
    forall y ensures y in Map(f, xs) <==> y in Elems(Map(f, xs)) {}
  }

  lemma QuestionsPacked(m: ManifestData, ids: set<Id>)
    ensures PacksQuestions(Map(WithoutSpans, KeepIds(QuestionKey, m.questions, ids)), m, ids)
  {
    KeptExactly(QuestionKey, m.questions, ids);
    MapMembers(WithoutSpans, KeepIds(QuestionKey, m.questions, ids));
    hide Map, KeepIds;
  }

  lemma HypothesesPacked(m: ManifestData, ids: set<Id>)
    ensures PacksHypotheses(Map(WithoutHypothesisSpans, KeepIds(HypothesisKey, m.hypotheses, ids)), m, ids)
  {
    KeptExactly(HypothesisKey, m.hypotheses, ids);
    MapMembers(WithoutHypothesisSpans, KeepIds(HypothesisKey, m.hypotheses, ids));
    hide Map, KeepIds;
  }

  lemma LinkedPacked(p: LexicalPacket, m: ManifestData, c: Chosen)
    requires p.timeline == KeepIds(TimelineEventKey, m.timeline, c.events) && p.gaps == KeepIds(GapKey, m.gaps, c.gaps)
    requires p.relations == RelationsWithin(m, c.hypotheses)
    ensures PacksLinked(p, m, c)
  {
    KeptExactly(TimelineEventKey, m.timeline, c.events);
    KeptExactly(GapKey, m.gaps, c.gaps);
    hide KeepIds;
  }

  lemma EvidencePacked(p: LexicalPacket, id: Id)
    ensures id in NamedEvidence(p.questions, p.hypotheses, p.relations, p.timeline) <==> PackedNames(p, id)
  {
    assert id in QuestionEvidence(p.questions) <==> exists x :: x in p.questions && id in x.evidenceIds;
    forall x | x in p.hypotheses && (id in x.evidenceIds || id in x.counterevidenceIds) ensures id in HypothesisEvidence(p.hypotheses) {
      assert id in Elems(x.evidenceIds) + Elems(x.counterevidenceIds);
    }
    assert id in HypothesisEvidence(p.hypotheses) <==> exists x :: x in p.hypotheses && (id in x.evidenceIds || id in x.counterevidenceIds);
    assert id in RelationEvidence(p.relations) <==> exists x :: x in p.relations && id in x.evidenceIds;
    assert id in EventEvidence(p.timeline) <==> exists x :: x in p.timeline && id in x.evidenceIds;
    hide QuestionEvidence, HypothesisEvidence, RelationEvidence, EventEvidence;
  }

  lemma ResourcesPacked(p: LexicalPacket, m: ManifestData)
    requires p.evidence == KeepIds(EvidenceKey, m.evidence, NamedEvidence(p.questions, p.hypotheses, p.relations, p.timeline))
    requires p.sources == KeepIds(SourceKey, m.sources, set e | e in p.evidence :: e.sourceId)
    ensures PacksResources(p, m)
  {
    KeptExactly(EvidenceKey, m.evidence, NamedEvidence(p.questions, p.hypotheses, p.relations, p.timeline));
    KeptExactly(SourceKey, m.sources, set e | e in p.evidence :: e.sourceId);
    hide KeepIds, NamedEvidence, PackedNames;
    forall id ensures id in NamedEvidence(p.questions, p.hypotheses, p.relations, p.timeline) <==> PackedNames(p, id) {
      EvidencePacked(p, id);
    }
  }

  // -------------------------------------------------------------------- matches

  function MatchTurn(kind: Kind): nat {
    match kind
    case GapKind => 0 case HypothesisKind => 1 case QuestionKind => 2 case RelationKind => 3 case TimelineKind => 4
  }

  // Higher score first, then gaps, hypotheses, questions, events, then the smaller ID.
  ghost predicate MatchBefore(a: RouteMatch, b: RouteMatch) {
    a.score > b.score ||
    (a.score == b.score &&
     (MatchTurn(a.kind) < MatchTurn(b.kind) || (a.kind == b.kind && (a.id == b.id || StrBefore(a.id, b.id)))))
  }

  lemma KindsInTurn(a: Kind, b: Kind)
    ensures KindName(a) == KindName(b) <==> a == b
    ensures StrLeq(KindName(a), KindName(b)) ==> MatchTurn(a) <= MatchTurn(b)
  {
    assert KindName(a)[0] as int <= KindName(b)[0] as int <==> MatchTurn(a) <= MatchTurn(b);
    assert CodePoint(KindName(a)[0]) == KindName(a)[0] as int && CodePoint(KindName(b)[0]) == KindName(b)[0] as int;
  }

  lemma MatchLeqExactly(a: RouteMatch, b: RouteMatch)
    requires MatchLeq(a, b)
    ensures MatchBefore(a, b)
  {
    KindsInTurn(a.kind, b.kind);
    StrBeforeExactly(a.id, b.id);
    hide StrLeq, StrBefore, KindName;
    assert MatchTurn(a.kind) == MatchTurn(b.kind) ==> a.kind == b.kind;
  }

  // A ranked record among the chosen, with its score and matched terms.
  predicate ChosenMatch(x: RouteMatch, s: Scores, c: Chosen) {
    match x.kind
    case QuestionKind => x.id in c.questions && Ranked(x.score, x.id, x.terms) in s.questions
    case HypothesisKind => x.id in c.hypotheses && Ranked(x.score, x.id, x.terms) in s.hypotheses
    case TimelineKind => x.id in c.events && Ranked(x.score, x.id, x.terms) in s.events
    case GapKind => x.id in c.gaps && Ranked(x.score, x.id, x.terms) in s.gaps
    case RelationKind => false
  }

  ghost predicate MatchesChosen(matches: seq<RouteMatch>, s: Scores, c: Chosen) {
    (forall i, j :: 0 <= i < j < |matches| ==> MatchBefore(matches[i], matches[j])) &&
    forall x :: x in matches <==> ChosenMatch(x, s, c)
  }

  lemma MatchesOfExactly(kind: Kind, ranked: seq<Ranked>, ids: set<Id>, x: RouteMatch)
    ensures x in MatchesOf(kind, ranked, ids) <==> x.kind == kind && x.id in ids && Ranked(x.score, x.id, x.terms) in ranked
  {
    var f := (r: Ranked) => RouteMatch(kind, r.id, r.score, r.terms);
    var kept := Filter((r: Ranked) => r.id in ids, ranked);
    MapMembers(f, kept);
    if x.kind == kind && x.id in ids && Ranked(x.score, x.id, x.terms) in ranked {
      assert Ranked(x.score, x.id, x.terms) in kept;
      assert f(Ranked(x.score, x.id, x.terms)) == x;
    }
  }

  lemma MatchesExactly(s: Scores, c: Chosen)
    ensures MatchesChosen(Sort(MatchLeq, AllMatches(s, c)), s, c)
  {
    var all := AllMatches(s, c);
    var sorted := Sort(MatchLeq, all);
    SortedMatches(all);
    hide Sort, MatchLeq, MatchBefore, AllMatches, ChosenMatch;
    forall i, j | 0 <= i < j < |sorted| ensures MatchBefore(sorted[i], sorted[j]) { MatchLeqExactly(sorted[i], sorted[j]); }
    forall x ensures x in sorted <==> ChosenMatch(x, s, c) {
      assert x in Elems(sorted) <==> x in Elems(all);
      MatchIsChosen(s, c, x);
    }
  }

  lemma MatchIsChosen(s: Scores, c: Chosen, x: RouteMatch)
    ensures x in AllMatches(s, c) <==> ChosenMatch(x, s, c)
  {
    hide MatchesOf;
    MatchesOfExactly(QuestionKind, s.questions, c.questions, x);
    MatchesOfExactly(HypothesisKind, s.hypotheses, c.hypotheses, x);
    MatchesOfExactly(TimelineKind, s.events, c.events, x);
    MatchesOfExactly(GapKind, s.gaps, c.gaps, x);
  }

  // -------------------------------------------------------------------- a route

  // What the packet says, given what was chosen.
  ghost predicate Packs(p: LexicalPacket, m: ManifestData, c: Chosen) {
    PacksQuestions(p.questions, m, c.questions) && PacksHypotheses(p.hypotheses, m, c.hypotheses) && PacksLinked(p, m, c) &&
    PacksResources(p, m)
  }

  lemma BuiltPacks(
    m: ManifestData, query: string, terms: set<string>, manifestHash: string, matches: seq<RouteMatch>, c: Chosen)
    ensures
      var p := BuildLexicalPacket(m, query, terms, manifestHash, matches, c);
      Packs(p, m, c) && p.query == query && p.queryTerms == terms && p.atlasId == m.atlasId && p.caseId == m.caseId &&
      p.manifestHash == manifestHash && p.matches == matches && p.status == (if matches == [] then StatusNoMatch else StatusRouted)
  {
    var p := BuildLexicalPacket(m, query, terms, manifestHash, matches, c);
    hide KeepIds, Map, RelationsWithin, NamedEvidence, PacksQuestions, PacksHypotheses, PacksLinked, PacksResources;
    QuestionsPacked(m, c.questions);
    HypothesesPacked(m, c.hypotheses);
    LinkedPacked(p, m, c);
    ResourcesPacked(p, m);
  }

  // No record of any kind shares a term with the query.
  ghost predicate NothingScores(m: ManifestData, terms: string -> set<string>, query: set<string>) {
    (forall x :: x in m.questions ==> QuestionScore(terms, query, x) == 0) &&
    (forall x :: x in m.hypotheses ==> HypothesisScore(terms, query, x) == 0) &&
    (forall x :: x in m.timeline ==> EventScore(terms, query, x) == 0) &&
    forall x :: x in m.gaps ==> GapScore(terms, query, x) == 0
  }

  lemma NoQuestions(m: ManifestData, ranked: seq<Ranked>, terms: string -> set<string>, query: set<string>)
    requires RanksQuestions(ranked, m, terms, query)
    ensures ranked == [] <==> forall x :: x in m.questions ==> QuestionScore(terms, query, x) == 0
  {
    hide QuestionScore, JoinTags, InRankOrder;
    if x :| x in m.questions && QuestionScore(terms, query, x) > 0 {
      assert Ranked(QuestionScore(terms, query, x), x.questionId,
        query * terms(x.prompt) + query * terms(JoinTags(x.tags)) + query * terms(x.shortAnswer) + query * terms(x.gap)) in ranked;
    }
    if ranked != [] { assert ranked[0] in ranked; }
  }

  lemma NoHypotheses(m: ManifestData, ranked: seq<Ranked>, terms: string -> set<string>, query: set<string>)
    requires RanksHypotheses(ranked, m, terms, query)
    ensures ranked == [] <==> forall x :: x in m.hypotheses ==> HypothesisScore(terms, query, x) == 0
  {
    hide HypothesisScore, JoinTags, InRankOrder;
    if x :| x in m.hypotheses && HypothesisScore(terms, query, x) > 0 {
      assert Ranked(HypothesisScore(terms, query, x), x.hypothesisId,
        query * terms(x.title) + query * terms(x.synthesis) + query * terms(x.gap)) in ranked;
    }
    if ranked != [] { assert ranked[0] in ranked; }
  }

  lemma NoEvents(m: ManifestData, ranked: seq<Ranked>, terms: string -> set<string>, query: set<string>)
    requires RanksEvents(ranked, m, terms, query)
    ensures ranked == [] <==> forall x :: x in m.timeline ==> EventScore(terms, query, x) == 0
  {
    hide EventScore, JoinTags, InRankOrder;
    if x :| x in m.timeline && EventScore(terms, query, x) > 0 {
      assert Ranked(EventScore(terms, query, x), x.eventId,
        query * terms(x.title) + query * terms(x.summary) + query * terms(x.dateLabel)) in ranked;
    }
    if ranked != [] { assert ranked[0] in ranked; }
  }

  lemma NoGaps(m: ManifestData, ranked: seq<Ranked>, terms: string -> set<string>, query: set<string>)
    requires RanksGaps(ranked, m, terms, query)
    ensures ranked == [] <==> forall x :: x in m.gaps ==> GapScore(terms, query, x) == 0
  {
    hide GapScore, JoinTags, InRankOrder;
    if x :| x in m.gaps && GapScore(terms, query, x) > 0 {
      assert Ranked(GapScore(terms, query, x), x.gapId,
        query * terms(x.gapLabel) + query * terms(x.whyItMatters) + query * terms(x.nextEvidence)) in ranked;
    }
    if ranked != [] { assert ranked[0] in ranked; }
  }

  lemma NothingRanked(m: ManifestData, s: Scores, terms: string -> set<string>, query: set<string>)
    requires RanksQuestions(s.questions, m, terms, query) && RanksHypotheses(s.hypotheses, m, terms, query)
    requires RanksEvents(s.events, m, terms, query) && RanksGaps(s.gaps, m, terms, query)
    ensures NothingScores(m, terms, query) <==> s.questions == [] && s.hypotheses == [] && s.events == [] && s.gaps == []
  {
    hide RanksQuestions, RanksHypotheses, RanksEvents, RanksGaps, QuestionScore, HypothesisScore, EventScore, GapScore;
    NoQuestions(m, s.questions, terms, query);
    NoHypotheses(m, s.hypotheses, terms, query);
    NoEvents(m, s.events, terms, query);
    NoGaps(m, s.gaps, terms, query);
  }

  // The packet follows from a ranking, a choice and its closure.
  ghost predicate RoutedBy(
    p: LexicalPacket, m: ManifestData, limits: RouteLimits, terms: string -> set<string>, query: set<string>,
    s: Scores, choice: Chosen, c: Chosen)
  {
    RanksQuestions(s.questions, m, terms, query) && RanksHypotheses(s.hypotheses, m, terms, query) &&
    RanksEvents(s.events, m, terms, query) && RanksGaps(s.gaps, m, terms, query) &&
    (if query == {} || NothingScores(m, terms, query) then choice == Chosen({}, {}, {}, {}) && p.matches == []
     else ChoosesWell(m, limits, s, choice) && MatchesChosen(p.matches, s, c)) &&
    ClosesOver(m, choice, c) && Packs(p, m, c) && (p.status == StatusNoMatch <==> p.matches == []) && p.status != StatusBudgetExceeded
  }

  // The route of a query: nothing when no record shares a term with it, else the
  // best choice of each kind, closed over references, with the matches it rests on.
  lemma RouteSays(m: Manifest, limits: RouteLimits, query: string, terms: string -> set<string>, manifestHash: string)
    ensures
      var p := RouteFor(m, limits, query, terms, manifestHash);
      p.query == query && p.queryTerms == terms(query) && p.atlasId == m.atlasId && p.caseId == m.caseId && p.manifestHash == manifestHash &&
      exists s, choice, c :: RoutedBy(p, m, limits, terms, terms(query), s, choice, c)
  {
    var s, words := ScoresFor(m, terms, terms(query)), terms(query);
    assert UniqueIds(m);
    hide *;
    ScoresExactly(m, terms, words);
    NothingRanked(m, s, terms, words);
    RouteCases(m, limits, query, terms, manifestHash);
    var p := RouteFor(m, limits, query, terms, manifestHash);
    if words == {} || NothingScores(m, terms, words) {
      var none := Chosen({}, {}, {}, {});
      NothingCloses(m);
      BuiltPacks(m, query, words, manifestHash, [], none);
      assert RoutedBy(p, m, limits, terms, words, s, none, none) by { RoutedByNone(p, m, limits, terms, words, s); }
    } else {
      var choice := Choose(m, limits, s);
      var c := Close(m, choice);
      ChoiceExactly(m, limits, terms, words);
      CloseExactly(m, choice);
      MatchesExactly(s, c);
      BuiltPacks(m, query, words, manifestHash, Sort(MatchLeq, AllMatches(s, c)), c);
      assert RoutedBy(p, m, limits, terms, words, s, choice, c) by { RoutedByChoice(p, m, limits, terms, words, s, choice, c); }
    }
  }

  lemma RoutedByNone(p: LexicalPacket, m: ManifestData, limits: RouteLimits, terms: string -> set<string>, query: set<string>, s: Scores)
    requires RanksQuestions(s.questions, m, terms, query) && RanksHypotheses(s.hypotheses, m, terms, query)
    requires RanksEvents(s.events, m, terms, query) && RanksGaps(s.gaps, m, terms, query)
    requires (query == {} || NothingScores(m, terms, query)) && p.matches == [] && p.status == StatusNoMatch
    requires ClosesOver(m, Chosen({}, {}, {}, {}), Chosen({}, {}, {}, {})) && Packs(p, m, Chosen({}, {}, {}, {}))
    ensures RoutedBy(p, m, limits, terms, query, s, Chosen({}, {}, {}, {}), Chosen({}, {}, {}, {}))
  {
    hide RanksQuestions, RanksHypotheses, RanksEvents, RanksGaps, ClosesOver, Packs, NothingScores;
  }

  lemma RoutedByChoice(
    p: LexicalPacket, m: ManifestData, limits: RouteLimits, terms: string -> set<string>, query: set<string>,
    s: Scores, choice: Chosen, c: Chosen)
    requires RanksQuestions(s.questions, m, terms, query) && RanksHypotheses(s.hypotheses, m, terms, query)
    requires RanksEvents(s.events, m, terms, query) && RanksGaps(s.gaps, m, terms, query)
    requires query != {} && !NothingScores(m, terms, query) && p.status == (if p.matches == [] then StatusNoMatch else StatusRouted)
    requires ChoosesWell(m, limits, s, choice) && MatchesChosen(p.matches, s, c) && ClosesOver(m, choice, c) && Packs(p, m, c)
    ensures RoutedBy(p, m, limits, terms, query, s, choice, c)
  {
    hide RanksQuestions, RanksHypotheses, RanksEvents, RanksGaps, ClosesOver, Packs, NothingScores, ChoosesWell, MatchesChosen;
  }

  lemma NothingCloses(m: ManifestData)
    ensures ClosesOver(m, Chosen({}, {}, {}, {}), Chosen({}, {}, {}, {}))
  {
  }

  lemma RouteCases(m: ManifestData, limits: RouteLimits, query: string, terms: string -> set<string>, manifestHash: string)
    ensures
      var s := ScoresFor(m, terms, terms(query));
      RouteFor(m, limits, query, terms, manifestHash) ==
      if terms(query) == {} || (s.questions == [] && s.hypotheses == [] && s.events == [] && s.gaps == [])
      then BuildLexicalPacket(m, query, terms(query), manifestHash, [], Chosen({}, {}, {}, {}))
      else
        var c := Close(m, Choose(m, limits, s));
        BuildLexicalPacket(m, query, terms(query), manifestHash, Sort(MatchLeq, AllMatches(s, c)), c)
  {
    hide ScoresFor, Choose, Close, BuildLexicalPacket, AllMatches;
  }
}
