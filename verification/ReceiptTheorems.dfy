// What a built receipt says, field by field, and every way the builder refuses.

module ReceiptTheorems {
  import opened Common
  import opened Ordering
  import opened AtlasModels
  import opened SemanticRoute

  ghost predicate SemanticRepeats(s: seq<SemanticPair>) {
    exists i, j :: 0 <= i < j < |s| && s[i].questionId == s[j].questionId
  }

  ghost predicate LexicalRepeats(l: seq<LexicalPair>) {
    exists i, j :: 0 <= i < j < |l| && l[i].questionId == l[j].questionId
  }

  ghost predicate Overlaps(s: seq<SemanticPair>, l: seq<LexicalPair>) {
    exists x, y :: x in s && y in l && x.questionId == y.questionId
  }

  predicate NamesUnknown(m: Manifest, s: seq<SemanticPair>, l: seq<LexicalPair>) {
    (exists x :: x in s && forall q :: q in m.questions ==> q.questionId != x.questionId) ||
    exists y :: y in l && forall q :: q in m.questions ==> q.questionId != y.questionId
  }

  predicate SomethingQualifies(s: seq<SemanticPair>, l: seq<LexicalPair>, threshold: real) {
    l != [] || exists x :: x in s && x.score >= threshold
  }

  lemma PairsRepeat(s: seq<SemanticPair>, l: seq<LexicalPair>)
    ensures SemanticRepeats(s) <==> !Distinct(Map(SemanticPairId, s))
    ensures LexicalRepeats(l) <==> !Distinct(Map(LexicalPairId, l))
  {
    hide Distinct;
    DistinctIndices(Map(SemanticPairId, s));
    DistinctIndices(Map(LexicalPairId, l));
  }

  lemma ChannelsMeet(s: seq<SemanticPair>, l: seq<LexicalPair>)
    requires Distinct(Map(SemanticPairId, s)) && Distinct(Map(LexicalPairId, l))
    ensures Overlaps(s, l) <==> !Distinct(PairIds(s, l))
  {
    var a, b := Map(SemanticPairId, s), Map(LexicalPairId, l);
    DistinctConcat(a, b);
    MapElems(SemanticPairId, s);
    MapElems(LexicalPairId, l);
    hide Distinct, Elems, Map;
    if id :| id in Elems(a) && id in Elems(b) {
      var x :| x in s && SemanticPairId(x) == id;
      var y :| y in l && LexicalPairId(y) == id;
    }
    if x, y :| x in s && y in l && x.questionId == y.questionId {
      assert SemanticPairId(x) in Elems(a) && LexicalPairId(y) in Elems(b);
    }
  }

  lemma UnknownExactly(m: Manifest, s: seq<SemanticPair>, l: seq<LexicalPair>)
    ensures NamesUnknown(m, s, l) <==> !(Elems(PairIds(s, l)) <= QuestionIds(m.questions))
  {
    var a, b, known := Map(SemanticPairId, s), Map(LexicalPairId, l), QuestionIds(m.questions);
    ElemsConcat(a, b);
    MapElems(SemanticPairId, s);
    MapElems(LexicalPairId, l);
    assert forall id :: id in known <==> exists q :: q in m.questions && q.questionId == id;
    hide Elems, Map, QuestionIds;
    if x :| x in s && forall q :: q in m.questions ==> q.questionId != x.questionId {
      assert SemanticPairId(x) in Elems(a) && SemanticPairId(x) !in known;
    }
    if y :| y in l && forall q :: q in m.questions ==> q.questionId != y.questionId {
      assert LexicalPairId(y) in Elems(b) && LexicalPairId(y) !in known;
    }
    if id :| id in Elems(a) + Elems(b) && id !in known {
      if id in Elems(a) {
        var x :| x in s && SemanticPairId(x) == id;
      } else {
        var y :| y in l && LexicalPairId(y) == id;
      }
    }
  }

  predicate ScoreOutOfRange(l: seq<LexicalPair>) {
    exists y :: y in l && (y.score < 1 || y.score > 1_000_000)
  }

  // Why the builder refuses, in the order it checks; otherwise it builds.
  lemma RefusedExactly(
    m: Manifest, manifestHash: string, query: string, host: Host, threshold: real,
    semantic: seq<SemanticPair>, lexical: seq<LexicalPair>, decision: Option<Decision>)
    ensures
      var normalized := host.normalizeQuery(query);
      var built := Build(m, manifestHash, query, host, threshold, semantic, lexical, decision);
      if |normalized| == 0 then built == Err(BlankQuery)
      else if |normalized| > 4_000 then built == Err(QueryTooLong)
      else if manifestHash != host.digest(m) then built == Err(StaleManifestHash)
      else if SemanticRepeats(semantic) then built == Err(SemanticIdsRepeat)
      else if ScoreOutOfRange(lexical) then built == Err(LexicalScoreOutOfRange)
      else if LexicalRepeats(lexical) then built == Err(LexicalIdsRepeat)
      else if Overlaps(semantic, lexical) then built == Err(ChannelsOverlap)
      else if NamesUnknown(m, semantic, lexical) then built == Err(UnknownQuestions)
      else if decision == Some(Routed) && !SomethingQualifies(semantic, lexical, threshold) then built == Err(InvalidReceipt)
      else built.Ok?
  {
    PairsChecked(m, semantic, lexical);
    BuildSucceedsExactly(m, manifestHash, query, host, threshold, semantic, lexical, decision);
    hide CheckPairs, Assemble, ValidReceipt, SemanticRepeats, LexicalRepeats, ScoreOutOfRange, Overlaps, NamesUnknown, QuestionIds;
  }

  lemma PairsChecked(m: Manifest, s: seq<SemanticPair>, l: seq<LexicalPair>)
    ensures
      CheckPairs(QuestionIds(m.questions), s, l) ==
      if SemanticRepeats(s) then Some(SemanticIdsRepeat)
      else if ScoreOutOfRange(l) then Some(LexicalScoreOutOfRange)
      else if LexicalRepeats(l) then Some(LexicalIdsRepeat)
      else if Overlaps(s, l) then Some(ChannelsOverlap)
      else if NamesUnknown(m, s, l) then Some(UnknownQuestions)
      else None
  {
    PairsRepeat(s, l);
    hide Distinct, Elems, QuestionIds, SemanticRepeats, LexicalRepeats, Overlaps, NamesUnknown, PairIds, Map;
    if Distinct(Map(SemanticPairId, s)) && Distinct(Map(LexicalPairId, l)) { ChannelsMeet(s, l); }
    UnknownExactly(m, s, l);
  }

  // ----------------------------------------------------------- the candidates

  // Higher scores first, the smaller ID first among equals, ranked from one.
  ghost predicate SemanticInOrder(c: seq<SemanticCandidate>) {
    (forall i :: 0 <= i < |c| ==> c[i].rank == i + 1) &&
    forall i, j :: 0 <= i < j < |c| ==>
      c[i].score > c[j].score || (c[i].score == c[j].score && StrBefore(c[i].questionId, c[j].questionId))
  }

  ghost predicate LexicalInOrder(c: seq<LexicalCandidate>) {
    (forall i :: 0 <= i < |c| ==> c[i].rank == i + 1) &&
    forall i, j :: 0 <= i < j < |c| ==>
      c[i].score > c[j].score || (c[i].score == c[j].score && StrBefore(c[i].questionId, c[j].questionId))
  }

  lemma SemanticSorted(c: seq<SemanticCandidate>, threshold: real)
    requires OrderedBySemanticScore(c, threshold)
    ensures Sorted(SemanticLeq, c) && forall i :: 0 <= i < |c| ==> c[i].rank == i + 1
  {
    LeqsAreTotalPreorders();
    hide StrLeq, Sort, TotalPreorder;
    SortCorrect(SemanticLeq, c);
  }

  lemma SemanticOrder(c: seq<SemanticCandidate>, threshold: real)
    requires OrderedBySemanticScore(c, threshold) && Distinct(Map(SemanticId, c))
    ensures SemanticInOrder(c)
  {
    SemanticSorted(c, threshold);
    DistinctIndices(Map(SemanticId, c));
    hide Distinct, StrLeq, StrBefore, Sort, OrderedBySemanticScore;
    forall i, j | 0 <= i < j < |c|
      ensures c[i].score > c[j].score || (c[i].score == c[j].score && StrBefore(c[i].questionId, c[j].questionId))
    {
      assert SemanticLeq(c[i], c[j]) && Map(SemanticId, c)[i] != Map(SemanticId, c)[j];
      StrBeforeExactly(c[i].questionId, c[j].questionId);
    }
  }

  lemma LexicalSorted(c: seq<LexicalCandidate>)
    requires OrderedByLexicalScore(c)
    ensures Sorted(LexicalLeq, c) && forall i :: 0 <= i < |c| ==> c[i].rank == i + 1
  {
    LeqsAreTotalPreorders();
    hide StrLeq, Sort, TotalPreorder;
    SortCorrect(LexicalLeq, c);
  }

  lemma LexicalOrder(c: seq<LexicalCandidate>)
    requires OrderedByLexicalScore(c) && Distinct(Map(LexicalId, c))
    ensures LexicalInOrder(c)
  {
    LexicalSorted(c);
    DistinctIndices(Map(LexicalId, c));
    hide Distinct, StrLeq, StrBefore, Sort, OrderedByLexicalScore;
    forall i, j | 0 <= i < j < |c|
      ensures c[i].score > c[j].score || (c[i].score == c[j].score && StrBefore(c[i].questionId, c[j].questionId))
    {
      assert LexicalLeq(c[i], c[j]) && Map(LexicalId, c)[i] != Map(LexicalId, c)[j];
      StrBeforeExactly(c[i].questionId, c[j].questionId);
    }
  }

  lemma ValidReceiptInOrder(r: Receipt)
    requires ValidReceipt(r)
    ensures SemanticInOrder(r.semantic) && LexicalInOrder(r.lexical)
  {
    DistinctConcat(Map(SemanticId, r.semantic), Map(LexicalId, r.lexical));
    hide Distinct, SemanticInOrder, LexicalInOrder, OrderedBySemanticScore, OrderedByLexicalScore, Map;
    SemanticOrder(r.semantic, r.threshold);
    LexicalOrder(r.lexical);
  }

  // A built receipt is for the manifest and the normalized query, holds its
  // candidates in order, keeps a forced decision, and otherwise routes exactly when
  // some score qualified.
  lemma BuiltReceiptSays(
    m: Manifest, manifestHash: string, query: string, host: Host, threshold: real,
    semantic: seq<SemanticPair>, lexical: seq<LexicalPair>, decision: Option<Decision>)
    requires Build(m, manifestHash, query, host, threshold, semantic, lexical, decision).Ok?
    ensures
      var r := Build(m, manifestHash, query, host, threshold, semantic, lexical, decision).value;
      r.query == host.normalizeQuery(query) && r.atlasId == m.atlasId && r.caseId == m.caseId &&
      r.manifestHash == manifestHash == host.digest(m) && r.threshold == threshold &&
      SemanticInOrder(r.semantic) && LexicalInOrder(r.lexical) &&
      match decision
      case Some(d) => r.decision == d
      case None => r.decision == Routed <==> SomethingQualifies(semantic, lexical, threshold)
  {
    var r := Build(m, manifestHash, query, host, threshold, semantic, lexical, decision).value;
    var s, l := Sort(SemanticPairLeq, Qualified(semantic, threshold)), Sort(LexicalPairLeq, lexical);
    assert r.semantic == RankSemantic(s) && r.lexical == RankLexical(l);
    BuildSucceedsExactly(m, manifestHash, query, host, threshold, semantic, lexical, decision);
    hide CheckPairs, ValidReceipt, Sort, Qualified, SemanticInOrder, LexicalInOrder, RankSemantic, RankLexical;
    ValidReceiptInOrder(r);
    NothingQualifies(semantic, lexical, threshold);
    RankedLengths(s, l);
  }

  lemma RankedLengths(s: seq<SemanticPair>, l: seq<LexicalPair>)
    ensures |RankSemantic(s)| == |s| && |RankLexical(l)| == |l|
  {
  }
}
