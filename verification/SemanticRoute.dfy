// Route candidate receipts: the canonical, ordered list of scored questions
// that the bounded router consumes.

module SemanticRoute {
  import opened Common
  import opened Ordering
  import opened AtlasModels

  datatype Decision = Routed | Abstained

  datatype SemanticCandidate = SemanticCandidate(questionId: Id, score: real, rank: int)

  datatype LexicalCandidate = LexicalCandidate(questionId: Id, score: int, rank: int)

  // A candidate of either channel, as the router meets it.
  datatype Candidate = Semantic(semantic: SemanticCandidate) | Lexical(lexical: LexicalCandidate) {
    function QuestionId(): Id {
      if Semantic? then semantic.questionId else lexical.questionId
    }
  }

  datatype Receipt = Receipt(
    query: string, atlasId: Id, caseId: Id, manifestHash: string,
    threshold: real, semantic: seq<SemanticCandidate>, lexical: seq<LexicalCandidate>,
    decision: Decision)
  {
    // Semantic seeds first, then lexical-only seeds.
    function OrderedCandidates(): seq<Candidate> {
      Map(c => Semantic(c), semantic) + Map(c => Lexical(c), lexical)
    }
  }

  const MAX_CANDIDATES := 1_000
  const MAX_LEXICAL_SCORE := 1_000_000
  const MAX_QUERY_LENGTH := 4_000

  // Higher score first, then the smaller question ID.
  predicate SemanticLeq(a: SemanticCandidate, b: SemanticCandidate) {
    a.score > b.score || (a.score == b.score && StrLeq(a.questionId, b.questionId))
  }

  predicate LexicalLeq(a: LexicalCandidate, b: LexicalCandidate) {
    a.score > b.score || (a.score == b.score && StrLeq(a.questionId, b.questionId))
  }

  lemma LeqsAreTotalPreorders()
    ensures TotalPreorder(SemanticLeq) && TotalPreorder(LexicalLeq)
    ensures TotalPreorder(SemanticPairLeq) && TotalPreorder(LexicalPairLeq)
  {
    StrLeqIsTotalPreorder();
  }

  predicate OrderedBySemanticScore(c: seq<SemanticCandidate>, threshold: real) {
    c == Sort(SemanticLeq, c) &&
    (forall i :: 0 <= i < |c| ==> c[i].rank == i + 1) &&
    (forall i :: 0 <= i < |c| ==> c[i].score >= threshold)
  }

  predicate OrderedByLexicalScore(c: seq<LexicalCandidate>) {
    c == Sort(LexicalLeq, c) &&
    (forall i :: 0 <= i < |c| ==> c[i].rank == i + 1)
  }

  function SemanticId(c: SemanticCandidate): Id { c.questionId }

  function LexicalId(c: LexicalCandidate): Id { c.questionId }

  function CandidateIds(semantic: seq<SemanticCandidate>, lexical: seq<LexicalCandidate>): seq<Id> {
    Map(SemanticId, semantic) + Map(LexicalId, lexical)
  }

  predicate ValidCandidates(semantic: seq<SemanticCandidate>, lexical: seq<LexicalCandidate>, threshold: real) {
    |semantic| <= MAX_CANDIDATES && |lexical| <= MAX_CANDIDATES &&
    (forall c :: c in lexical ==> 1 <= c.score <= MAX_LEXICAL_SCORE) &&
    OrderedBySemanticScore(semantic, threshold) &&
    OrderedByLexicalScore(lexical) &&
    Distinct(CandidateIds(semantic, lexical))
  }

  predicate ValidReceipt(r: Receipt) {
    0 < |r.query| <= MAX_QUERY_LENGTH &&
    ValidCandidates(r.semantic, r.lexical, r.threshold) &&
    (r.decision == Routed ==> CandidateIds(r.semantic, r.lexical) != [])
  }

  // A receipt is fresh for a manifest and a query when it was issued for both
  // and names only questions the manifest holds.
  predicate FreshFor(r: Receipt, m: Manifest, manifestHash: string, query: string, host: Host) {
    manifestHash == host.digest(m) &&
    r.query == host.normalizeQuery(query) &&
    r.atlasId == m.atlasId && r.caseId == m.caseId && r.manifestHash == manifestHash &&
    (forall c :: c in r.OrderedCandidates() ==> c.QuestionId() in QuestionIds(m.questions))
  }

  // ------------------------------------------------------------ the builder

  datatype SemanticPair = SemanticPair(questionId: Id, score: real)

  datatype LexicalPair = LexicalPair(questionId: Id, score: int)

  datatype BuildError =
    | BlankQuery | QueryTooLong | StaleManifestHash
    | SemanticIdsRepeat | LexicalScoreOutOfRange | LexicalIdsRepeat
    | ChannelsOverlap | UnknownQuestions | InvalidReceipt

  // One pass over caller-supplied scores, as the source's loop makes it.
  method LexicalPairs(scores: seq<LexicalPair>) returns (r: Result<seq<LexicalPair>, BuildError>)
    ensures r == if exists p :: p in scores && !(1 <= p.score <= MAX_LEXICAL_SCORE) then Err(LexicalScoreOutOfRange)
                 else if !Distinct(Map(LexicalPairId, scores)) then Err(LexicalIdsRepeat)
                 else Ok(scores)
  {
    var identifiers: seq<Id> := [];
    var validated: seq<LexicalPair> := [];
    for i := 0 to |scores|
      invariant validated == scores[..i] && |identifiers| == i
      invariant forall k :: 0 <= k < i ==> identifiers[k] == scores[k].questionId
      invariant forall p :: p in scores[..i] ==> 1 <= p.score <= MAX_LEXICAL_SCORE
    {
      if !(1 <= scores[i].score <= MAX_LEXICAL_SCORE) { return Err(LexicalScoreOutOfRange); }
      identifiers := identifiers + [scores[i].questionId];
      validated := validated + [scores[i]];
    }
    assert scores[..|scores|] == scores;
    assert identifiers == Map(LexicalPairId, scores);
    if |identifiers| != |Elems(identifiers)| { return Err(LexicalIdsRepeat); }
    return Ok(validated);
  }

  predicate SemanticPairLeq(a: SemanticPair, b: SemanticPair) {
    a.score > b.score || (a.score == b.score && StrLeq(a.questionId, b.questionId))
  }

  predicate LexicalPairLeq(a: LexicalPair, b: LexicalPair) {
    a.score > b.score || (a.score == b.score && StrLeq(a.questionId, b.questionId))
  }

  function SemanticPairId(p: SemanticPair): Id { p.questionId }

  function LexicalPairId(p: LexicalPair): Id { p.questionId }

  function PairIds(semantic: seq<SemanticPair>, lexical: seq<LexicalPair>): seq<Id> {
    Map(SemanticPairId, semantic) + Map(LexicalPairId, lexical)
  }

  function Qualified(s: seq<SemanticPair>, threshold: real): seq<SemanticPair> {
    Filter((p: SemanticPair) => p.score >= threshold, s)
  }

  function RankSemantic(s: seq<SemanticPair>): seq<SemanticCandidate> {
    seq(|s|, i requires 0 <= i < |s| => SemanticCandidate(s[i].questionId, s[i].score, i + 1))
  }

  function RankLexical(s: seq<LexicalPair>): seq<LexicalCandidate> {
    seq(|s|, i requires 0 <= i < |s| => LexicalCandidate(s[i].questionId, s[i].score, i + 1))
  }

  function CheckPairs(known: set<Id>, semantic: seq<SemanticPair>, lexical: seq<LexicalPair>): Option<BuildError> {
    if !Distinct(Map(SemanticPairId, semantic)) then Some(SemanticIdsRepeat)
    else if exists p :: p in lexical && !(1 <= p.score <= MAX_LEXICAL_SCORE) then Some(LexicalScoreOutOfRange)
    else if !Distinct(Map(LexicalPairId, lexical)) then Some(LexicalIdsRepeat)
    else if !Distinct(PairIds(semantic, lexical)) then Some(ChannelsOverlap)
    else if !(Elems(PairIds(semantic, lexical)) <= known) then Some(UnknownQuestions)
    else None
  }

  function Assemble(
    m: Manifest, manifestHash: string, query: string, threshold: real,
    semantic: seq<SemanticPair>, lexical: seq<LexicalPair>, decision: Option<Decision>): Receipt
  {
    var semanticCandidates := RankSemantic(Sort(SemanticPairLeq, Qualified(semantic, threshold)));
    var lexicalCandidates := RankLexical(Sort(LexicalPairLeq, lexical));
    var selected := match decision
      case Some(d) => d
      case None => if semanticCandidates == [] && lexicalCandidates == [] then Abstained else Routed;
    Receipt(query, m.atlasId, m.caseId, manifestHash, threshold,
            semanticCandidates, lexicalCandidates, selected)
  }

  function Build(
    m: Manifest, manifestHash: string, query: string, host: Host, threshold: real,
    semantic: seq<SemanticPair>, lexical: seq<LexicalPair>, decision: Option<Decision>): Result<Receipt, BuildError>
  {
    var normalized := host.normalizeQuery(query);
    if normalized == "" then Err(BlankQuery)
    else if |normalized| > MAX_QUERY_LENGTH then Err(QueryTooLong)
    else if manifestHash != host.digest(m) then Err(StaleManifestHash)
    else match CheckPairs(QuestionIds(m.questions), semantic, lexical)
      case Some(e) => Err(e)
      case None =>
        var r := Assemble(m, manifestHash, normalized, threshold, semantic, lexical, decision);
        if ValidReceipt(r) then Ok(r) else Err(InvalidReceipt)
  }

  // Only which pairs were scored matters, never the order they came in: the
  // same receipt is built, or the same refusal is raised.
  lemma BuildIsOrderIndependent(
    m: Manifest, manifestHash: string, query: string, host: Host, threshold: real, decision: Option<Decision>,
    semantic: seq<SemanticPair>, semantic': seq<SemanticPair>, lexical: seq<LexicalPair>, lexical': seq<LexicalPair>)
    requires multiset(semantic) == multiset(semantic') && multiset(lexical) == multiset(lexical')
    ensures Build(m, manifestHash, query, host, threshold, semantic, lexical, decision)
         == Build(m, manifestHash, query, host, threshold, semantic', lexical', decision)
  {
    LeqsAreTotalPreorders();
    CheckIsOrderIndependent(QuestionIds(m.questions), semantic, semantic', lexical, lexical');
    FilterPermutes((p: SemanticPair) => p.score >= threshold, semantic, semantic');
    forall x, y | SemanticPairLeq(x, y) && SemanticPairLeq(y, x) ensures x == y {
      StrLeqAntisymmetric(x.questionId, y.questionId);
    }
    forall x, y | LexicalPairLeq(x, y) && LexicalPairLeq(y, x) ensures x == y {
      StrLeqAntisymmetric(x.questionId, y.questionId);
    }
    SortCanonical(SemanticPairLeq, Qualified(semantic, threshold), Qualified(semantic', threshold));
    SortCanonical(LexicalPairLeq, lexical, lexical');
  }

  lemma CheckIsOrderIndependent(
    known: set<Id>,
    semantic: seq<SemanticPair>, semantic': seq<SemanticPair>, lexical: seq<LexicalPair>, lexical': seq<LexicalPair>)
    requires multiset(semantic) == multiset(semantic') && multiset(lexical) == multiset(lexical')
    ensures CheckPairs(known, semantic, lexical) == CheckPairs(known, semantic', lexical')
  {
    MapPermutes(SemanticPairId, semantic, semantic');
    MapPermutes(LexicalPairId, lexical, lexical');
    SameElements(lexical, lexical');
    assert forall p :: p in lexical <==> p in Elems(lexical);
    assert forall p :: p in lexical' <==> p in Elems(lexical');
    DistinctByMultiset(Map(SemanticPairId, semantic), Map(SemanticPairId, semantic'));
    DistinctByMultiset(Map(LexicalPairId, lexical), Map(LexicalPairId, lexical'));
    DistinctByMultiset(PairIds(semantic, lexical), PairIds(semantic', lexical'));
    SameElements(PairIds(semantic, lexical), PairIds(semantic', lexical'));
  }

  // ------------------------------------- every built receipt is a valid one

  lemma RankedSemanticIsOrdered(s: seq<SemanticPair>, threshold: real)
    requires Sorted(SemanticPairLeq, s) && forall p :: p in s ==> p.score >= threshold
    ensures OrderedBySemanticScore(RankSemantic(s), threshold)
  {
    assert forall i, j :: 0 <= i < j < |s| ==> SemanticPairLeq(s[i], s[j]);
    SortOfSorted(SemanticLeq, RankSemantic(s));
    assert forall i :: 0 <= i < |s| ==> s[i] in s;
  }

  lemma RankedLexicalIsOrdered(s: seq<LexicalPair>)
    requires Sorted(LexicalPairLeq, s)
    ensures OrderedByLexicalScore(RankLexical(s))
  {
    assert forall i, j :: 0 <= i < j < |s| ==> LexicalPairLeq(s[i], s[j]);
    SortOfSorted(LexicalLeq, RankLexical(s));
  }

  lemma RankedIds(s: seq<SemanticPair>, l: seq<LexicalPair>)
    ensures CandidateIds(RankSemantic(s), RankLexical(l)) == PairIds(s, l)
  {
    assert Map(SemanticId, RankSemantic(s)) == Map(SemanticPairId, s);
    assert Map(LexicalId, RankLexical(l)) == Map(LexicalPairId, l);
  }

  lemma {:induction false} QuestionIdsBound(s: seq<Question>)
    ensures |QuestionIds(s)| <= |s|
  {
    if s != [] {
      QuestionIdsBound(s[1..]);
      assert s == [s[0]] + s[1..];
      assert QuestionIds(s) == {s[0].questionId} + QuestionIds(s[1..]);
    }
  }

  // Filtering and sorting keep the IDs distinct across both channels.
  lemma SortedIds(semantic: seq<SemanticPair>, lexical: seq<LexicalPair>, threshold: real)
    requires Distinct(PairIds(semantic, lexical))
    ensures var s, l := Sort(SemanticPairLeq, Qualified(semantic, threshold)), Sort(LexicalPairLeq, lexical);
            Distinct(PairIds(s, l)) && Elems(PairIds(s, l)) <= Elems(PairIds(semantic, lexical)) &&
            Elems(s) == Elems(Qualified(semantic, threshold)) && Elems(l) == Elems(lexical)
  {
    LeqsAreTotalPreorders();
    var q := Qualified(semantic, threshold);
    var s, l := Sort(SemanticPairLeq, q), Sort(LexicalPairLeq, lexical);
    SortCorrect(SemanticPairLeq, q);
    SortCorrect(LexicalPairLeq, lexical);
    SameElements(s, q);
    SameElements(l, lexical);
    DistinctConcat(Map(SemanticPairId, semantic), Map(LexicalPairId, lexical));
    FilterDistinct((p: SemanticPair) => p.score >= threshold, SemanticPairId, semantic);
    FilterKeys((p: SemanticPair) => p.score >= threshold, SemanticPairId, semantic);
    MapPermutes(SemanticPairId, q, s);
    MapPermutes(LexicalPairId, lexical, l);
    DistinctByMultiset(Map(SemanticPairId, q), Map(SemanticPairId, s));
    DistinctByMultiset(Map(LexicalPairId, lexical), Map(LexicalPairId, l));
    SameElements(Map(SemanticPairId, q), Map(SemanticPairId, s));
    SameElements(Map(LexicalPairId, lexical), Map(LexicalPairId, l));
    DistinctConcat(Map(SemanticPairId, s), Map(LexicalPairId, l));
  }

  lemma RankedCandidatesValid(
    known: set<Id>, semantic: seq<SemanticPair>, lexical: seq<LexicalPair>, threshold: real)
    requires CheckPairs(known, semantic, lexical) == None && |known| <= MAX_CANDIDATES
    ensures var s, l := Sort(SemanticPairLeq, Qualified(semantic, threshold)), Sort(LexicalPairLeq, lexical);
            ValidCandidates(RankSemantic(s), RankLexical(l), threshold)
  {
    var s, l := Sort(SemanticPairLeq, Qualified(semantic, threshold)), Sort(LexicalPairLeq, lexical);
    SortedIds(semantic, lexical, threshold);
    assert Sorted(SemanticPairLeq, s) && Sorted(LexicalPairLeq, l) by {
      LeqsAreTotalPreorders();
      SortCorrect(SemanticPairLeq, Qualified(semantic, threshold));
      SortCorrect(LexicalPairLeq, lexical);
    }
    forall p | p in s ensures p.score >= threshold { assert p in Elems(s); }
    forall p | p in l ensures 1 <= p.score <= MAX_LEXICAL_SCORE { assert p in Elems(l); }
    RankedSemanticIsOrdered(s, threshold);
    RankedLexicalIsOrdered(l);
    RankedIds(s, l);
    SubsetCount(Elems(PairIds(s, l)), known);
  }

  // The builder succeeds exactly when the query is usable, the manifest hash is
  // current, the pairs are admissible, and the caller does not force a routed
  // decision with nothing to route; what it returns is valid.
  lemma BuildSucceedsExactly(
    m: Manifest, manifestHash: string, query: string, host: Host, threshold: real,
    semantic: seq<SemanticPair>, lexical: seq<LexicalPair>, decision: Option<Decision>)
    ensures
      var normalized := host.normalizeQuery(query);
      var built := Build(m, manifestHash, query, host, threshold, semantic, lexical, decision);
      (built.Ok? <==>
        0 < |normalized| <= MAX_QUERY_LENGTH && manifestHash == host.digest(m) &&
        CheckPairs(QuestionIds(m.questions), semantic, lexical) == None &&
        !(decision == Some(Routed) && lexical == [] && forall p :: p in semantic ==> p.score < threshold)) &&
      (built.Ok? ==> ValidReceipt(built.value))
  {
    var known := QuestionIds(m.questions);
    QuestionIdsBound(m.questions);
    if CheckPairs(known, semantic, lexical) == None {
      RankedCandidatesValid(known, semantic, lexical, threshold);
      NothingQualifies(semantic, lexical, threshold);
    }
  }

  lemma NothingQualifies(semantic: seq<SemanticPair>, lexical: seq<LexicalPair>, threshold: real)
    ensures var s, l := Sort(SemanticPairLeq, Qualified(semantic, threshold)), Sort(LexicalPairLeq, lexical);
            (s == [] <==> forall p :: p in semantic ==> p.score < threshold) && (l == [] <==> lexical == [])
  {
    LeqsAreTotalPreorders();
    var q := Qualified(semantic, threshold);
    SortCorrect(SemanticPairLeq, q);
    SortCorrect(LexicalPairLeq, lexical);
    SameElements(q, Sort(SemanticPairLeq, q));
    SameElements(lexical, Sort(LexicalPairLeq, lexical));
    if q != [] { assert q[0] in q; }
  }

  lemma PairsAdmitted(known: set<Id>, semantic: seq<SemanticPair>, lexical: seq<LexicalPair>)
    requires CheckPairs(known, semantic, lexical) == None
    ensures Distinct(PairIds(semantic, lexical)) && Elems(PairIds(semantic, lexical)) <= known
  {
  }

  // A built receipt is fresh for its manifest and query.
  lemma BuiltReceiptIsFresh(
    m: Manifest, manifestHash: string, query: string, host: Host, threshold: real,
    semantic: seq<SemanticPair>, lexical: seq<LexicalPair>, decision: Option<Decision>)
    requires Build(m, manifestHash, query, host, threshold, semantic, lexical, decision).Ok?
    ensures FreshFor(Build(m, manifestHash, query, host, threshold, semantic, lexical, decision).value,
                     m, manifestHash, query, host)
  {
    PairsAdmitted(QuestionIds(m.questions), semantic, lexical);
    var known := QuestionIds(m.questions);
    var s, l := Sort(SemanticPairLeq, Qualified(semantic, threshold)), Sort(LexicalPairLeq, lexical);
    SortedIds(semantic, lexical, threshold);
    RankedIds(s, l);
    assert Elems(PairIds(s, l)) <= known;
    CandidatesKnown(Build(m, manifestHash, query, host, threshold, semantic, lexical, decision).value, known);
  }

  // It holds the qualified scores and nothing else.
  lemma BuiltReceiptHoldsQualifiedScores(
    m: Manifest, manifestHash: string, query: string, host: Host, threshold: real,
    semantic: seq<SemanticPair>, lexical: seq<LexicalPair>, decision: Option<Decision>)
    requires Build(m, manifestHash, query, host, threshold, semantic, lexical, decision).Ok?
    ensures
      var r := Build(m, manifestHash, query, host, threshold, semantic, lexical, decision).value;
      (forall id, score ::
        (exists c :: c in r.semantic && c.questionId == id && c.score == score) <==>
        SemanticPair(id, score) in semantic && score >= threshold) &&
      (forall id, score ::
        (exists c :: c in r.lexical && c.questionId == id && c.score == score) <==>
        LexicalPair(id, score) in lexical)
  {
    PairsAdmitted(QuestionIds(m.questions), semantic, lexical);
    var s, l := Sort(SemanticPairLeq, Qualified(semantic, threshold)), Sort(LexicalPairLeq, lexical);
    SortedIds(semantic, lexical, threshold);
    RankedContents(s, l);
    forall p ensures p in s <==> p in semantic && p.score >= threshold { assert p in s <==> p in Elems(s); }
    forall p ensures p in l <==> p in lexical { assert p in l <==> p in Elems(l); }
  }

  lemma CandidatesKnown(r: Receipt, known: set<Id>)
    ensures Elems(CandidateIds(r.semantic, r.lexical)) <= known
       <==> forall c :: c in r.OrderedCandidates() ==> c.QuestionId() in known
  {
    var all, ids := r.OrderedCandidates(), CandidateIds(r.semantic, r.lexical);
    assert |all| == |ids| && forall i :: 0 <= i < |all| ==> all[i].QuestionId() == ids[i];
    forall c | c in all ensures c.QuestionId() in Elems(ids) {
      var i :| 0 <= i < |all| && all[i] == c;
      assert ids[i] in ids;
    }
    forall id | id in Elems(ids) ensures exists c :: c in all && c.QuestionId() == id {
      var i :| 0 <= i < |ids| && ids[i] == id;
      assert all[i] in all;
    }
  }

  lemma RankedContents(s: seq<SemanticPair>, l: seq<LexicalPair>)
    ensures forall id, score ::
      (exists c :: c in RankSemantic(s) && c.questionId == id && c.score == score) <==> SemanticPair(id, score) in s
    ensures forall id, score ::
      (exists c :: c in RankLexical(l) && c.questionId == id && c.score == score) <==> LexicalPair(id, score) in l
  {
    forall id, score | SemanticPair(id, score) in s
      ensures exists c :: c in RankSemantic(s) && c.questionId == id && c.score == score
    {
      var i :| 0 <= i < |s| && s[i] == SemanticPair(id, score);
      assert RankSemantic(s)[i] in RankSemantic(s);
    }
    forall id, score | LexicalPair(id, score) in l
      ensures exists c :: c in RankLexical(l) && c.questionId == id && c.score == score
    {
      var i :| 0 <= i < |l| && l[i] == LexicalPair(id, score);
      assert RankLexical(l)[i] in RankLexical(l);
    }
  }
}
