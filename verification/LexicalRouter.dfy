// TaskRouter.route, the schema 1.0 router: rank by word overlap, cap, then close
// over declared references.

module LexicalRouter {
  import opened Common
  import opened Ordering
  import opened AtlasModels
  import opened SemanticRoute
  import opened RouteGraph
  import opened RoutePacket

  // ---------------------------------------------------------------- ranking

  datatype Field = Field(value: string, weight: nat)

  datatype Scored = Scored(id: Id, fields: seq<Field>)

  datatype Ranked = Ranked(score: nat, id: Id, terms: set<string>)

  function Overlap(terms: string -> set<string>, query: set<string>, value: string): set<string> {
    query * terms(value)
  }

  function Score(terms: string -> set<string>, query: set<string>, fields: seq<Field>): nat {
    if fields == [] then 0
    else Score(terms, query, fields[..|fields| - 1]) +
         |Overlap(terms, query, fields[|fields| - 1].value)| * fields[|fields| - 1].weight
  }

  function Matched(terms: string -> set<string>, query: set<string>, fields: seq<Field>): set<string> {
    set f, t | f in fields && t in Overlap(terms, query, f.value) :: t
  }

  predicate RankedLeq(a: Ranked, b: Ranked) {
    a.score > b.score || (a.score == b.score && StrLeq(a.id, b.id))
  }

  function RankRecord(terms: string -> set<string>, query: set<string>, x: Scored): Ranked {
    Ranked(Score(terms, query, x.fields), x.id, Matched(terms, query, x.fields))
  }

  function Hits(terms: string -> set<string>, query: set<string>, records: seq<Scored>): seq<Ranked> {
    if records == [] then []
    else
      var last := RankRecord(terms, query, records[|records| - 1]);
      Hits(terms, query, records[..|records| - 1]) + (if last.score > 0 then [last] else [])
  }

  method Rank(terms: string -> set<string>, records: seq<Scored>, query: set<string>) returns (ranked: seq<Ranked>)
    ensures ranked == Sort(RankedLeq, Hits(terms, query, records))
  {
    ranked := [];
    for i := 0 to |records|
      invariant ranked == Hits(terms, query, records[..i])
    {
      var fields := records[i].fields;
      var score, matched: set<string> := 0, {};
      for j := 0 to |fields|
        invariant score == Score(terms, query, fields[..j]) && matched == Matched(terms, query, fields[..j])
      {
        var overlap := query * terms(fields[j].value);
        assert fields[..j + 1][..j] == fields[..j] && fields[..j + 1] == fields[..j] + [fields[j]];
        score := score + |overlap| * fields[j].weight;
        matched := matched + overlap;
      }
      assert fields[..|fields|] == fields;
      assert records[..i + 1][..i] == records[..i];
      if score > 0 { ranked := ranked + [Ranked(score, records[i].id, matched)]; }
    }
    assert records[..|records|] == records;
    ranked := Sort(RankedLeq, ranked);
  }

  lemma {:induction false} HitsAreRecords(terms: string -> set<string>, query: set<string>, records: seq<Scored>)
    ensures forall h :: h in Hits(terms, query, records) ==>
              h.score > 0 && exists x :: x in records && h == RankRecord(terms, query, x)
    ensures forall x :: x in records && Score(terms, query, x.fields) > 0 ==>
              RankRecord(terms, query, x) in Hits(terms, query, records)
  {
    if records != [] {
      var front, last := records[..|records| - 1], records[|records| - 1];
      assert records == front + [last];
      HitsAreRecords(terms, query, front);
    }
  }

  // A positive score has a matching term behind it.
  lemma {:induction false} ScoreHasTerms(terms: string -> set<string>, query: set<string>, fields: seq<Field>)
    ensures Score(terms, query, fields) > 0 ==> Matched(terms, query, fields) != {}
    ensures Matched(terms, query, fields) <= query
  {
    if fields != [] {
      var front, last := fields[..|fields| - 1], fields[|fields| - 1];
      assert fields == front + [last];
      ScoreHasTerms(terms, query, front);
      var overlap := Overlap(terms, query, last.value);
      if |overlap| > 0 {
        var t :| t in overlap;
        assert t in Matched(terms, query, fields);
      }
      if t :| t in Matched(terms, query, front) { assert t in Matched(terms, query, fields); }
    }
  }

  // Ranking is sound and complete, and its order is by score, then ID.
  lemma RankingIsExact(terms: string -> set<string>, records: seq<Scored>, query: set<string>)
    ensures var ranked := Sort(RankedLeq, Hits(terms, query, records));
            Sorted(RankedLeq, ranked) &&
            (forall h :: h in ranked <==> exists x :: x in records && h == RankRecord(terms, query, x) && h.score > 0) &&
            (forall h :: h in ranked ==> h.terms != {} && h.terms <= query)
  {
    var hits := Hits(terms, query, records);
    RankedLeqIsTotalPreorder();
    SortCorrect(RankedLeq, hits);
    SameElements(hits, Sort(RankedLeq, hits));
    HitsAreRecords(terms, query, records);
    forall h ensures h in Sort(RankedLeq, hits) <==> h in hits { assert h in Elems(hits) <==> h in hits; }
    forall h | h in hits ensures h.terms != {} && h.terms <= query {
      var x :| x in records && h == RankRecord(terms, query, x);
      ScoreHasTerms(terms, query, x.fields);
    }
  }

  lemma RankedLeqIsTotalPreorder()
    ensures TotalPreorder(RankedLeq)
  {
    StrLeqIsTotalPreorder();
  }

  // ---------------------------------------------------------------- capping

  function Take(ids: seq<Id>, limit: nat): seq<Id> {
    if |ids| <= limit then ids else ids[..limit]
  }

  method CappedIds(primary: seq<Id>, linked: seq<Id>, limit: nat) returns (ids: set<Id>)
    ensures ids == Elems(Take(StableUnique(primary + linked), limit))
  {
    if limit == 0 { return {}; }
    var selected := Take(StableUnique(primary), limit);
    assert primary + linked[..0] == primary;
    for i := 0 to |linked|
      invariant selected == Take(StableUnique(primary + linked[..i]), limit)
    {
      CapStep(primary + linked[..i], linked[i], limit);
      assert primary + linked[..i + 1] == primary + linked[..i] + [linked[i]];
      if linked[i] !in selected && |selected| < limit { selected := selected + [linked[i]]; }
    }
    assert linked[..|linked|] == linked;
    return Elems(selected);
  }

  lemma CapStep(ids: seq<Id>, id: Id, limit: nat)
    ensures
      var selected := Take(StableUnique(ids), limit);
      Take(StableUnique(ids + [id]), limit) == if id !in selected && |selected| < limit then selected + [id] else selected
  {
    var all := StableUnique(ids);
    assert (ids + [id])[..|ids|] == ids;
    assert id in ids <==> id in Elems(ids);
    assert id in all <==> id in Elems(all);
  }

  // ---------------------------------------------------------------- closing

  function HypothesisQuestions(hypotheses: seq<Hypothesis>, ids: set<Id>): set<Id> {
    set h, q | h in hypotheses && h.hypothesisId in ids && q in h.questionIds :: q
  }

  function EventQuestions(timeline: seq<TimelineEvent>, ids: set<Id>): set<Id> {
    set t, q | t in timeline && t.eventId in ids && q in t.questionIds :: q
  }

  function EventHypotheses(timeline: seq<TimelineEvent>, ids: set<Id>): set<Id> {
    set t, h | t in timeline && t.eventId in ids && h in t.hypothesisIds :: h
  }

  function GapQuestions(gaps: seq<Gap>, ids: set<Id>): set<Id> {
    set g, q | g in gaps && g.gapId in ids && q in g.relatedQuestionIds :: q
  }

  function GapHypotheses(gaps: seq<Gap>, ids: set<Id>): set<Id> {
    set g, h | g in gaps && g.gapId in ids && h in g.relatedHypothesisIds :: h
  }

  // Every chosen record names only chosen records.
  predicate Closes(m: ManifestData, questions: set<Id>, hypotheses: set<Id>, events: set<Id>, gaps: set<Id>) {
    HypothesisQuestions(m.hypotheses, hypotheses) <= questions &&
    EventQuestions(m.timeline, events) <= questions && EventHypotheses(m.timeline, events) <= hypotheses &&
    GapQuestions(m.gaps, gaps) <= questions && GapHypotheses(m.gaps, gaps) <= hypotheses
  }

  function ClosedHypotheses(m: ManifestData, hypotheses: set<Id>, events: set<Id>, gaps: set<Id>): set<Id> {
    hypotheses + EventHypotheses(m.timeline, events) + GapHypotheses(m.gaps, gaps)
  }

  function ClosedQuestions(m: ManifestData, questions: set<Id>, hypotheses: set<Id>, events: set<Id>, gaps: set<Id>): set<Id> {
    questions + EventQuestions(m.timeline, events) + GapQuestions(m.gaps, gaps) +
    HypothesisQuestions(m.hypotheses, ClosedHypotheses(m, hypotheses, events, gaps))
  }

  method FollowHypotheses(m: ManifestData, questions: set<Id>, hypotheses: set<Id>) returns (q: set<Id>)
    ensures q == questions + HypothesisQuestions(m.hypotheses, hypotheses)
  {
    q := questions;
    for i := 0 to |m.hypotheses|
      invariant q == questions + HypothesisQuestions(m.hypotheses[..i], hypotheses)
    {
      assert m.hypotheses[..i + 1] == m.hypotheses[..i] + [m.hypotheses[i]];
      if m.hypotheses[i].hypothesisId in hypotheses { q := q + Elems(m.hypotheses[i].questionIds); }
    }
    assert m.hypotheses[..|m.hypotheses|] == m.hypotheses;
  }

  method FollowEvents(m: ManifestData, questions: set<Id>, hypotheses: set<Id>, events: set<Id>)
    returns (q: set<Id>, h: set<Id>)
    ensures q == questions + EventQuestions(m.timeline, events)
    ensures h == hypotheses + EventHypotheses(m.timeline, events)
  {
    q, h := questions, hypotheses;
    for i := 0 to |m.timeline|
      invariant q == questions + EventQuestions(m.timeline[..i], events)
      invariant h == hypotheses + EventHypotheses(m.timeline[..i], events)
    {
      assert m.timeline[..i + 1] == m.timeline[..i] + [m.timeline[i]];
      if m.timeline[i].eventId in events {
        q := q + Elems(m.timeline[i].questionIds);
        h := h + Elems(m.timeline[i].hypothesisIds);
      }
    }
    assert m.timeline[..|m.timeline|] == m.timeline;
  }

  method FollowGaps(m: ManifestData, questions: set<Id>, hypotheses: set<Id>, gaps: set<Id>)
    returns (q: set<Id>, h: set<Id>)
    ensures q == questions + GapQuestions(m.gaps, gaps)
    ensures h == hypotheses + GapHypotheses(m.gaps, gaps)
  {
    q, h := questions, hypotheses;
    for i := 0 to |m.gaps|
      invariant q == questions + GapQuestions(m.gaps[..i], gaps)
      invariant h == hypotheses + GapHypotheses(m.gaps[..i], gaps)
    {
      assert m.gaps[..i + 1] == m.gaps[..i] + [m.gaps[i]];
      if m.gaps[i].gapId in gaps {
        q := q + Elems(m.gaps[i].relatedQuestionIds);
        h := h + Elems(m.gaps[i].relatedHypothesisIds);
      }
    }
    assert m.gaps[..|m.gaps|] == m.gaps;
  }

  // One sweep over the manifest. Hypotheses come first, so what events and gaps
  // add is followed up only by the next sweep.
  method Sweep(m: ManifestData, questions: set<Id>, hypotheses: set<Id>, events: set<Id>, gaps: set<Id>)
    returns (q: set<Id>, h: set<Id>)
    ensures q == questions + HypothesisQuestions(m.hypotheses, hypotheses) +
                 EventQuestions(m.timeline, events) + GapQuestions(m.gaps, gaps)
    ensures h == ClosedHypotheses(m, hypotheses, events, gaps)
  {
    hide HypothesisQuestions, EventQuestions, EventHypotheses, GapQuestions, GapHypotheses;
    q := FollowHypotheses(m, questions, hypotheses);
    q, h := FollowEvents(m, q, hypotheses, events);
    q, h := FollowGaps(m, q, h, gaps);
  }

  // Sweeps until nothing is added, which takes at most three sweeps.
  method CloseObjectReferences(m: ManifestData, questions: set<Id>, hypotheses: set<Id>, events: set<Id>, gaps: set<Id>)
    returns (q: set<Id>, h: set<Id>, ghost passes: nat)
    ensures q == ClosedQuestions(m, questions, hypotheses, events, gaps)
    ensures h == ClosedHypotheses(m, hypotheses, events, gaps)
    ensures 1 <= passes <= 3
  {
    hide HypothesisQuestions, EventQuestions, EventHypotheses, GapQuestions, GapHypotheses;
    q, h, passes := questions, hypotheses, 0;
    var changed := true;
    ghost var finalH := ClosedHypotheses(m, hypotheses, events, gaps);
    NamedByMore(m, hypotheses, finalH);
    while changed
      invariant questions <= q <= ClosedQuestions(m, questions, hypotheses, events, gaps)
      invariant hypotheses <= h <= finalH
      invariant passes >= 1 ==> h == finalH
      invariant passes >= 2 || !changed ==> q == ClosedQuestions(m, questions, hypotheses, events, gaps)
      invariant passes <= 3 && (passes == 3 ==> !changed) && (passes == 0 ==> changed)
      decreases 3 - passes
    {
      ghost var q0, h0 := q, h;
      var before := (|q|, |h|);
      NamedByMore(m, h, finalH);
      q, h := Sweep(m, q, h, events, gaps);
      SameSize(q0, q);
      SameSize(h0, h);
      changed := before != (|q|, |h|);
      passes := passes + 1;
    }
  }

  lemma SameSize(a: set<Id>, b: set<Id>)
    requires a <= b
    ensures |a| == |b| <==> a == b
  {
    if |a| == |b| { assert b == a + (b - a); }
  }

  lemma NamedByMore(m: ManifestData, few: set<Id>, many: set<Id>)
    requires few <= many
    ensures HypothesisQuestions(m.hypotheses, few) <= HypothesisQuestions(m.hypotheses, many)
  {
  }

  // The closure is the least closed superset of what was selected.
  lemma ClosureIsLeast(m: ManifestData, questions: set<Id>, hypotheses: set<Id>, events: set<Id>, gaps: set<Id>,
                       otherQuestions: set<Id>, otherHypotheses: set<Id>)
    ensures
      var q, h := ClosedQuestions(m, questions, hypotheses, events, gaps), ClosedHypotheses(m, hypotheses, events, gaps);
      Closes(m, q, h, events, gaps) && questions <= q && hypotheses <= h
    ensures
      Closes(m, otherQuestions, otherHypotheses, events, gaps) && questions <= otherQuestions && hypotheses <= otherHypotheses ==>
      ClosedQuestions(m, questions, hypotheses, events, gaps) <= otherQuestions &&
      ClosedHypotheses(m, hypotheses, events, gaps) <= otherHypotheses
  {
    var h := ClosedHypotheses(m, hypotheses, events, gaps);
    if Closes(m, otherQuestions, otherHypotheses, events, gaps) && hypotheses <= otherHypotheses {
      NamedByMore(m, h, otherHypotheses);
    }
    hide HypothesisQuestions, EventQuestions, EventHypotheses, GapQuestions, GapHypotheses;
  }

  // -------------------------------------------------------------- selecting

  // Seed maxima of a lexical route.
  type RouteLimits = l: LimitsData | 1 <= l.maxQuestions <= 20 && l.maxHypotheses <= 12 && l.maxEvents <= 20 && l.maxGaps <= 12
    witness LimitsData(4, 3, 4, 3)

  datatype LimitsData = LimitsData(maxQuestions: nat, maxHypotheses: nat, maxEvents: nat, maxGaps: nat)

  datatype Scores = Scores(questions: seq<Ranked>, hypotheses: seq<Ranked>, events: seq<Ranked>, gaps: seq<Ranked>)

  datatype Chosen = Chosen(questions: set<Id>, hypotheses: set<Id>, events: set<Id>, gaps: set<Id>)

  function RankedId(r: Ranked): Id { r.id }

  function JoinTags(tags: seq<string>): string {
    if tags == [] then "" else if |tags| == 1 then tags[0] else tags[0] + " " + JoinTags(tags[1..])
  }

  function ScoredQuestion(x: Question): Scored {
    Scored(x.questionId, [Field(x.prompt, 6), Field(JoinTags(x.tags), 5), Field(x.shortAnswer, 2), Field(x.gap, 1)])
  }

  function ScoredHypothesis(x: Hypothesis): Scored {
    Scored(x.hypothesisId, [Field(x.title, 5), Field(x.synthesis, 2), Field(x.gap, 1)])
  }

  function ScoredEvent(x: TimelineEvent): Scored {
    Scored(x.eventId, [Field(x.title, 5), Field(x.summary, 2), Field(x.dateLabel, 4)])
  }

  function ScoredGap(x: Gap): Scored {
    Scored(x.gapId, [Field(x.gapLabel, 5), Field(x.whyItMatters, 2), Field(x.nextEvidence, 2)])
  }

  function ScoresFor(m: ManifestData, terms: string -> set<string>, query: set<string>): Scores {
    Scores(Sort(RankedLeq, Hits(terms, query, Map(ScoredQuestion, m.questions))),
           Sort(RankedLeq, Hits(terms, query, Map(ScoredHypothesis, m.hypotheses))),
           Sort(RankedLeq, Hits(terms, query, Map(ScoredEvent, m.timeline))),
           Sort(RankedLeq, Hits(terms, query, Map(ScoredGap, m.gaps))))
  }

  predicate NamesAny(named: seq<Id>, ids: set<Id>) {
    exists id :: id in named && id in ids
  }

  function LinkedHypothesis(questions: set<Id>): Hypothesis -> bool {
    (h: Hypothesis) => NamesAny(h.questionIds, questions)
  }

  function LinkedEvent(questions: set<Id>, hypotheses: set<Id>): TimelineEvent -> bool {
    (t: TimelineEvent) => NamesAny(t.questionIds, questions) || NamesAny(t.hypothesisIds, hypotheses)
  }

  function LinkedGap(questions: set<Id>, hypotheses: set<Id>): Gap -> bool {
    (g: Gap) => NamesAny(g.relatedQuestionIds, questions) || NamesAny(g.relatedHypothesisIds, hypotheses)
  }

  function LinkedHypotheses(m: ManifestData, questions: set<Id>): seq<Hypothesis> {
    Filter(LinkedHypothesis(questions), m.hypotheses)
  }

  function LinkedEvents(m: ManifestData, questions: set<Id>, hypotheses: set<Id>): seq<TimelineEvent> {
    Filter(LinkedEvent(questions, hypotheses), m.timeline)
  }

  function LinkedGaps(m: ManifestData, questions: set<Id>, hypotheses: set<Id>): seq<Gap> {
    Filter(LinkedGap(questions, hypotheses), m.gaps)
  }

  // Scored objects, restricted to linked ones once anything is selected.
  function Primary(ranked: seq<Ranked>, free: bool, linked: set<Id>): seq<Id> {
    Map(RankedId, Filter((r: Ranked) => free || r.id in linked, ranked))
  }

  function Capped(ranked: seq<Ranked>, free: bool, linked: seq<Id>, limit: nat): set<Id> {
    Elems(Take(StableUnique(Primary(ranked, free, Elems(linked)) + linked), limit))
  }

  function TopQuestions(ranked: seq<Ranked>, limit: nat): set<Id> {
    Elems(Map(RankedId, if |ranked| <= limit then ranked else ranked[..limit]))
  }

  function Choose(m: ManifestData, limits: RouteLimits, scores: Scores): Chosen {
    var questions := TopQuestions(scores.questions, limits.maxQuestions);
    var hypotheses := Capped(scores.hypotheses, questions == {},
                             Map(HypothesisKey, LinkedHypotheses(m, questions)), limits.maxHypotheses);
    var free := questions == {} && hypotheses == {};
    var events := Capped(scores.events, free, Map(TimelineEventKey, LinkedEvents(m, questions, hypotheses)), limits.maxEvents);
    var gaps := Capped(scores.gaps, free, Map(GapKey, LinkedGaps(m, questions, hypotheses)), limits.maxGaps);
    Chosen(questions, hypotheses, events, gaps)
  }

  function Close(m: ManifestData, c: Chosen): Chosen {
    Chosen(ClosedQuestions(m, c.questions, c.hypotheses, c.events, c.gaps),
           ClosedHypotheses(m, c.hypotheses, c.events, c.gaps), c.events, c.gaps)
  }

  method ChooseSeeds(m: ManifestData, limits: RouteLimits, scores: Scores) returns (c: Chosen)
    ensures c == Choose(m, limits, scores)
  {
    hide StableUnique, Take, LinkedHypotheses, LinkedEvents, LinkedGaps, Primary;
    var questions := TopQuestions(scores.questions, limits.maxQuestions);
    var linkedHypotheses := Map(HypothesisKey, LinkedHypotheses(m, questions));
    var hypotheses := CappedIds(
      Primary(scores.hypotheses, questions == {}, Elems(linkedHypotheses)), linkedHypotheses, limits.maxHypotheses);
    var free := questions == {} && hypotheses == {};
    var linkedEvents := Map(TimelineEventKey, LinkedEvents(m, questions, hypotheses));
    var events := CappedIds(Primary(scores.events, free, Elems(linkedEvents)), linkedEvents, limits.maxEvents);
    var linkedGaps := Map(GapKey, LinkedGaps(m, questions, hypotheses));
    var gaps := CappedIds(Primary(scores.gaps, free, Elems(linkedGaps)), linkedGaps, limits.maxGaps);
    c := Chosen(questions, hypotheses, events, gaps);
  }

  // ---------------------------------------------------------------- packets

  datatype RouteMatch = RouteMatch(kind: Kind, id: Id, score: nat, terms: set<string>)

  datatype LexicalPacket = LexicalPacket(
    status: RouteStatus, query: string, queryTerms: set<string>, atlasId: Id, caseId: Id, manifestHash: string,
    matches: seq<RouteMatch>, sources: seq<Source>, evidence: seq<Evidence>, questions: seq<Question>,
    hypotheses: seq<Hypothesis>, relations: seq<Relation>, timeline: seq<TimelineEvent>, gaps: seq<Gap>)

  function KindName(kind: Kind): string {
    match kind
    case QuestionKind => "question" case HypothesisKind => "hypothesis" case RelationKind => "relation"
    case TimelineKind => "timeline" case GapKind => "gap"
  }

  predicate MatchLeq(a: RouteMatch, b: RouteMatch) {
    a.score > b.score ||
    (a.score == b.score &&
      (if KindName(a.kind) == KindName(b.kind) then StrLeq(a.id, b.id)
       else StrLeq(KindName(a.kind), KindName(b.kind))))
  }

  function MatchesOf(kind: Kind, ranked: seq<Ranked>, ids: set<Id>): seq<RouteMatch> {
    Map((r: Ranked) => RouteMatch(kind, r.id, r.score, r.terms), Filter((r: Ranked) => r.id in ids, ranked))
  }

  function AllMatches(scores: Scores, c: Chosen): seq<RouteMatch> {
    MatchesOf(QuestionKind, scores.questions, c.questions) + MatchesOf(HypothesisKind, scores.hypotheses, c.hypotheses) +
    MatchesOf(TimelineKind, scores.events, c.events) + MatchesOf(GapKind, scores.gaps, c.gaps)
  }

  function RelationsWithin(m: ManifestData, hypotheses: set<Id>): seq<Relation> {
    Filter((r: Relation) => r.sourceHypothesisId in hypotheses && r.targetHypothesisId in hypotheses, m.relations)
  }

  function QuestionEvidence(s: seq<Question>): set<Id> { set x, e | x in s && e in x.evidenceIds :: e }

  function HypothesisEvidence(s: seq<Hypothesis>): set<Id> {
    set x, e | x in s && e in Elems(x.evidenceIds) + Elems(x.counterevidenceIds) :: e
  }

  function EventEvidence(s: seq<TimelineEvent>): set<Id> { set x, e | x in s && e in x.evidenceIds :: e }

  function RelationEvidence(s: seq<Relation>): set<Id> { set x, e | x in s && e in x.evidenceIds :: e }

  // Evidence named by the packed objects.
  function NamedEvidence(questions: seq<Question>, hypotheses: seq<Hypothesis>, relations: seq<Relation>,
                         timeline: seq<TimelineEvent>): set<Id> {
    QuestionEvidence(questions) + HypothesisEvidence(hypotheses) + EventEvidence(timeline) + RelationEvidence(relations)
  }

  function BuildLexicalPacket(
    m: ManifestData, query: string, terms: set<string>, manifestHash: string, matches: seq<RouteMatch>, c: Chosen): LexicalPacket
  {
    var questions := Map(WithoutSpans, KeepIds(QuestionKey, m.questions, c.questions));
    var hypotheses := Map(WithoutHypothesisSpans, KeepIds(HypothesisKey, m.hypotheses, c.hypotheses));
    var timeline := KeepIds(TimelineEventKey, m.timeline, c.events);
    var relations := RelationsWithin(m, c.hypotheses);
    var evidence := KeepIds(EvidenceKey, m.evidence, NamedEvidence(questions, hypotheses, relations, timeline));
    LexicalPacket(
      if matches == [] then StatusNoMatch else StatusRouted, query, terms, m.atlasId, m.caseId, manifestHash, matches,
      KeepIds(SourceKey, m.sources, set e | e in evidence :: e.sourceId), evidence,
      questions, hypotheses, relations, timeline, KeepIds(GapKey, m.gaps, c.gaps))
  }

  predicate NoMemory(p: LexicalPacket) {
    p.sources == [] && p.evidence == [] && p.questions == [] && p.hypotheses == [] && p.timeline == [] && p.gaps == []
  }

  // The schema 1.0 validator, without the length caps of its fields.
  predicate AcceptedLexical(p: LexicalPacket) {
    ReferenceClosedPacket(p.sources, p.evidence, p.questions, p.hypotheses, p.relations, p.timeline, p.gaps) &&
    (forall x :: x in p.matches ==> x.kind != RelationKind && x.score >= 1 && x.terms != {}) &&
    p.status != StatusBudgetExceeded &&
    (p.status == StatusNoMatch ==> NoMemory(p)) &&
    (p.status == StatusRouted ==> !NoMemory(p) && p.matches != [])
  }

  function RouteFor(m: ManifestData, limits: RouteLimits, query: string, terms: string -> set<string>, manifestHash: string): LexicalPacket {
    var scores := ScoresFor(m, terms, terms(query));
    if terms(query) == {} || (scores.questions == [] && scores.hypotheses == [] && scores.events == [] && scores.gaps == []) then
      BuildLexicalPacket(m, query, terms(query), manifestHash, [], Chosen({}, {}, {}, {}))
    else
      var c := Close(m, Choose(m, limits, scores));
      BuildLexicalPacket(m, query, terms(query), manifestHash, Sort(MatchLeq, AllMatches(scores, c)), c)
  }

  datatype LexicalError = BlankRouteQuery | LongRouteQuery

  method Route(m: Manifest, manifestHash: string, query: string, limits: RouteLimits, host: Host)
    returns (r: Result<LexicalPacket, LexicalError>)
    ensures
      var normalized := host.normalizeQuery(query);
      (r.Ok? <==> 0 < |normalized| <= MAX_QUERY_LENGTH) &&
      (r.Err? ==> r.error == if |normalized| == 0 then BlankRouteQuery else LongRouteQuery) &&
      (r.Ok? ==> r.value == RouteFor(m, limits, normalized, host.terms, manifestHash))
  {
    hide Choose, Closes, BuildLexicalPacket, Hits, AllMatches;
    var normalized := host.normalizeQuery(query);
    if normalized == "" { return Err(BlankRouteQuery); }
    if |normalized| > MAX_QUERY_LENGTH { return Err(LongRouteQuery); }
    var terms := host.terms(normalized);
    if terms == {} {
      return Ok(BuildLexicalPacket(m, normalized, terms, manifestHash, [], Chosen({}, {}, {}, {})));
    }
    var questions := Rank(host.terms, Map(ScoredQuestion, m.questions), terms);
    var hypotheses := Rank(host.terms, Map(ScoredHypothesis, m.hypotheses), terms);
    var events := Rank(host.terms, Map(ScoredEvent, m.timeline), terms);
    var gaps := Rank(host.terms, Map(ScoredGap, m.gaps), terms);
    var scores := Scores(questions, hypotheses, events, gaps);
    if questions == [] && hypotheses == [] && events == [] && gaps == [] {
      return Ok(BuildLexicalPacket(m, normalized, terms, manifestHash, [], Chosen({}, {}, {}, {})));
    }
    var chosen := ChooseSeeds(m, limits, scores);
    var q, h, _ := CloseObjectReferences(m, chosen.questions, chosen.hypotheses, chosen.events, chosen.gaps);
    var c := Chosen(q, h, chosen.events, chosen.gaps);
    return Ok(BuildLexicalPacket(m, normalized, terms, manifestHash, Sort(MatchLeq, AllMatches(scores, c)), c));
  }
}
