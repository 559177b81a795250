# Verified model of the Dithyramba evidence engine

Dithyramba is a deterministic evidence memory. It routes a query through a graph
of questions, hypotheses, events, gaps and relations into a small packet, gives
every artifact a canonical byte form, cuts documents into exactly addressed
fragments, and decides by several gates whether evidence suffices and whether an
answer may be shown. This project models those algorithms in Dafny and proves what
they guarantee, for all inputs.

`dafny verify dfyconfig.toml` checks everything.

## Layout

| part | modules |
|---|---|
| Shared vocabulary, sorting | `Common`, `Ordering` |
| Atlas records and graph validation | `AtlasModels` |
| Route candidate receipts | `SemanticRoute`, `ReceiptTheorems` |
| The budgeted router | `RouteGraph` (closures, budgets), `RouteRun` (the pass as a transition system), `RouteInvariant`, `RouteTheorems`, `RouteStages`, `BudgetedSelection` (the mutable object, proved to take those transitions), `RoutePacket` (packet and validators), `BoundedRouter` (the whole pass); read off the manifest's records: `RouteRecords`, `RouteTrace`, `RouteParents`, `RouteOrder`, `RouteBlocks`, `PacketRecords` |
| The schema 1.0 router | `LexicalRouter`, `LexicalRouteTheorems`, `LexicalRecords` |
| Canonical JSON | `JsonText`, `JsonPrinter`, `JsonMeaning`, `Utf8`, `CanonicalJson` (the traversal of the object graph), `CanonicalTheorems`, `CycleDetection`, `CanonicalBytes`, `CanonicalText` (a second definition, on characters and bytes) |
| The text parser | `MarkdownLines`, `HeadingContext`, `MarkdownParser`, `MarkdownTheorems`, `MarkdownGrammar` (headings and fences by their characters), `FragmentRecords` |
| The XML block projector, the book rendering | `XmlTree`, `XmlPaths`, `XmlText`, `XmlConservation`, `XmlUnitText` (a unit's text, character by character), `BookMarkdown` |
| Decision gates | `EvidenceGate`, `EvidenceGateTheorems`, `EvidenceDecision`, `ClaimEntailment`, `AnswerProjection`, `AnswerSoundness`, `GateRecords` (the decisions), `FindingRecords` (every finding reported) |
| Access and literal search | `AccessCompiler`, `AccessRecords`, `LiteralSearch` |

Code that works by changing state is a class or a method with loops, proved against
a specification function or relation; the theorems are about that specification.
Every specification is in turn characterised by the fields, characters or bytes of
its inputs and results (the modules of records, grammar, text and decision above).
SHA-256 digests, NFC, white space, case folding, word terms and numeric literals
are parameters. What is assumed of them is written where it is used: NFC is
idempotent and closed under taking parts of a text (`MarkdownParser.NormalForm`,
`CanonicalBytes.Idempotent`), and neither makes nor removes white space
(`XmlText.KeepsBlanks`). Only the case set builder needs digests to be free of collisions, for its success
(`GateRecords.Collisionless`).

## Findings

Two properties one would expect do not hold as stated; each is replaced by the
exact condition.

* A fresh receipt and a valid budget do not always lead to a packet: the packet's
  `query_terms` field takes at most 128 entries, and a query within its 4,000
  characters can have more distinct terms. `BoundedRouter.RouteV2` succeeds
  exactly when there are at most 128; `BoundedRouter.ManyTermsAreRefused` gives a
  query of 515 characters that is refused. Every other cap follows from the budget.
* The evidence gate accepts or refuses the same candidates in any order, and the
  result does not depend on the order; but when candidates hold both kinds of
  lineage clash, the order decides which error is raised.
  `EvidenceGateTheorems.OutcomeIgnoresOrderExactly` gives the condition and
  `EvidenceGateTheorems.OrderChangesTheError` three candidates that show it.

## Model

| member | source | states |
|---|---|---|
| `BudgetedSelection.BudgetedRouteSelection.constructor` | src/dithyramba/atlas/memory_packet.py:848-874 | The empty selection satisfies the class invariant: id sets, order lists and resources mirror the trace. |
| `BudgetedSelection.BudgetedRouteSelection.AdmitSeed` | src/dithyramba/atlas/memory_packet.py:876-918 | Keeps the invariant (evidence exactly the union over held objects, sources exactly its image) and takes the one admission transition: whole closure in, or one recorded refusal. |
| `BudgetedSelection.BudgetedRouteSelection.AdmitHypothesis` | src/dithyramba/atlas/memory_packet.py:956-984 | Keeps the invariant; a held hypothesis changes nothing, any other is admitted with its questions or refused whole. |
| `BudgetedSelection.BudgetedRouteSelection.AdmitEvent` | src/dithyramba/atlas/memory_packet.py:986-1026 | Keeps the invariant and admits the event with its whole closure of questions, hypotheses, evidence and sources, or refuses it. |
| `BudgetedSelection.BudgetedRouteSelection.AdmitGap` | src/dithyramba/atlas/memory_packet.py:1028-1067 | The same for a gap. |
| `BudgetedSelection.BudgetedRouteSelection.AdmitRelationObject` | src/dithyramba/atlas/memory_packet.py:1069-1089 | The same for a relation, which never brings a hypothesis in. |
| `BudgetedSelection.BudgetedRouteSelection.CommitClosure` | src/dithyramba/atlas/memory_packet.py:1091-1119 | Appends exactly the part of a closure not yet held, in order, and leaves the omission list as it was although each commit clears its object from it. |
| `BudgetedSelection.BudgetedRouteSelection.FindParent` | src/dithyramba/atlas/memory_packet.py:1121-1133 | Returns the first named seed in seed order, else the first named linked hypothesis in admission order. |
| `BudgetedSelection.BudgetedRouteSelection.ResourceClosure` | src/dithyramba/atlas/memory_packet.py:1135-1150 | Collects exactly the evidence named by the listed objects and exactly the sources of that evidence. |
| `BudgetedSelection.BudgetedRouteSelection.CheckCapacity` | src/dithyramba/atlas/memory_packet.py:1152-1180 | Names the first of the seven budgets that held and demanded objects together overrun, or none. |
| `BudgetedSelection.BudgetedRouteSelection.OmitObject` | src/dithyramba/atlas/memory_packet.py:1182-1191 | Records a refusal once; the first reason stays. |
| `BudgetedSelection.BudgetedRouteSelection.ClearOmission` | src/dithyramba/atlas/memory_packet.py:1193-1198 | Removes the object's refusal, and changes nothing when there is none. |
| `BudgetedSelection.BudgetedRouteSelection.ExpandGraph` | src/dithyramba/atlas/memory_packet.py:920-954 | One expansion layer refines the transition system, invariant kept; which records it puts to the budget is what `RouteRecords.EveryRecordIsAccountedFor` and `RouteRecords.OnlyEligibleIsAdmitted` state. |
| `RouteInvariant.AdmitKeepsInv` | src/dithyramba/atlas/memory_packet.py:876-1089 | Every admission keeps the whole invariant: budgets kept, references closed, each key once, parents before children, every past refusal still justified. |
| `RouteInvariant.CommitKeepsRefusals` | src/dithyramba/atlas/memory_packet.py:1091-1119 | A successful admission commits nothing that was refused before and leaves every recorded refusal justified, so clearing an omission never has an effect. |
| `RouteTheorems.ParentIsHeld` | src/dithyramba/atlas/memory_packet.py:1121-1133 | The parent lookup never fails on an eligible object and finds something already in the trace. |
| `RouteTheorems.RunKeepsInv` | src/dithyramba/atlas/memory_packet.py:557-612 | The invariant holds at the end of every run, for every manifest, budget and candidate list. |
| `RouteTheorems.RunLosesNothing` | src/dithyramba/atlas/memory_packet.py:876-954 | After any run every candidate, every hypothesis naming a seed, every event or gap naming a seed or first-layer hypothesis, and every relation touching an admitted hypothesis is in exactly one of trace and omissions, and omissions hold nothing else. |
| `RouteTheorems.RunIsMaximal` | src/dithyramba/atlas/memory_packet.py:1152-1198 | At the end no refused object is held, each recorded budget inequality or missing endpoint still holds, and no wanted object left out could be added. |
| `RouteRecords.EveryRecordIsAccountedFor` | src/dithyramba/atlas/memory_packet.py:920-954 | The same by the records' own fields: after every run each candidate, each hypothesis whose questions hold a seed, each event or gap whose questions hold a seed or whose hypotheses hold an admitted one naming a seed, and each relation with an admitted endpoint is in exactly one of trace and omissions. |
| `RouteRecords.OnlyEligibleIsOmitted` | src/dithyramba/atlas/memory_packet.py:920-954 | Nothing else is ever refused: every omission is a candidate's or that of a record with such a field. |
| `RouteRecords.OnlyEligibleIsAdmitted` | src/dithyramba/atlas/memory_packet.py:876-1089 | Nothing else ever comes in: a question is a candidate or named by an admitted record, a hypothesis names a seed or is named by an admitted event or gap, an event or gap is eligible, a relation joins two admitted hypotheses. |
| `RouteTrace.SeedEntriesAreCandidates` | src/dithyramba/atlas/memory_packet.py:876-918 | Every seed entry is a candidate's, with the rank and score of its own channel and none of the other. |
| `RouteTrace.AdmittedCandidatesAreSeeds` | src/dithyramba/atlas/memory_packet.py:876-918 | A candidate is admitted as a seed or not at all; expansion never brings a refused one in. |
| `RouteTrace.SemanticBeforeLexical` | src/dithyramba/atlas/memory_packet.py:591-594 | Once a semantic candidate is refused for the question budget no later semantic candidate and no lexical one is a seed. |
| `RouteParents.ParentsByRecord` | src/dithyramba/atlas/memory_packet.py:1121-1133 | An admitted event or gap names as its parent the earliest seed among its questions, or with none the earliest admitted seed-linked hypothesis among its hypotheses; a relation names its source hypothesis. |
| `RouteParents.HypothesisParents` | src/dithyramba/atlas/memory_packet.py:956-984 | A hypothesis that names a seed hangs on the earliest seed it names. |
| `RouteOrder.RunIsOrdered` | src/dithyramba/atlas/memory_packet.py:920-954 | The trace starts with the seeds in candidate order; events come before gaps and both before relations, each kind in the order of the manifest. |
| `RouteBlocks.NamedComeFirst` | src/dithyramba/atlas/memory_packet.py:956-1089 | Nothing is admitted ahead of what it names: a hypothesis follows its questions, an event or gap its questions and hypotheses, a relation both its ends. |
| `RouteBlocks.CompanionsArrive` | src/dithyramba/atlas/memory_packet.py:1091-1119 | A question that is no seed, and a hypothesis that names none, comes in with a later object whose record names it, itself or through a hypothesis; between the two stands only more of what that object brings, under that object's own parent, in the order its record names it. |
| `RoutePacket.BuiltPacketAccepted` | src/dithyramba/atlas/memory_packet.py:334-415 | A packet built from any state that satisfies the invariant passes both validators exactly when the query has at most 128 distinct terms. |
| `RoutePacket.TraceCap` | src/dithyramba/atlas/memory_packet.py:130-139 | The trace cap of 700 follows from the budgets. |
| `PacketRecords.ExceedsExactly` | src/dithyramba/atlas/memory_packet.py:1152-1180 | When each of the seven budgets is overrun, by counting objects, the evidence they name and its sources. |
| `PacketRecords.FirstOverrun` | src/dithyramba/atlas/memory_packet.py:1152-1180 | The refusal names the first budget overrun in the order questions, hypotheses, relations, events, gaps, evidence, sources. |
| `PacketRecords.RoutedPacketSays` | src/dithyramba/atlas/memory_packet.py:767-843 | The packet of every route: exactly the admitted records, spans dropped, in admission order; exactly the evidence they name and its sources; all seven counts within the budget; the status by whether anything could be routed and was admitted. |
| `PacketRecords.IssuedExactly` | src/dithyramba/atlas/semantic_route.py:180-216 | A receipt is fresh exactly when its hash, query, Atlas and case are the current ones and each of its candidates is a question of the manifest. |
| `BoundedRouter.AdmitCandidates` | src/dithyramba/atlas/memory_packet.py:591-594 | The seed loop refines seed admission over the receipt's ordered candidates. |
| `BoundedRouter.RouteV2` | src/dithyramba/atlas/memory_packet.py:557-612 | Succeeds exactly for a usable query, a valid and fresh receipt and at most 128 query terms; then the packet passes both validators and is the one the transition system selects. Otherwise the error is that of the first check that fails. |
| `BoundedRouter.SelectedPacketAccepted` | src/dithyramba/atlas/memory_packet.py:767-843 | Every valid receipt over known questions, every budget: the packet is accepted if and only if the query terms fit their field. |
| `BoundedRouter.ManyTermsAreRefused` | src/dithyramba/atlas/memory_packet.py:211-233 | A concrete query of 129 distinct terms and 515 characters for which no packet is accepted. |
| `SemanticRoute.LexicalPairs` | src/dithyramba/atlas/semantic_route.py:355-368 | The loop reports an out-of-range score, else repeated IDs, else returns the pairs. |
| `SemanticRoute.BuildIsOrderIndependent` | src/dithyramba/atlas/semantic_route.py:219-323 | Any permutation of the score pairs gives the same receipt, or the same refusal. |
| `SemanticRoute.BuildSucceedsExactly` | src/dithyramba/atlas/semantic_route.py:115-143 | The exact condition under which the builder succeeds; what it returns passes the receipt validator: sorted, ranks contiguous from one, above threshold, IDs unique across channels, at most 1,000. |
| `SemanticRoute.BuiltReceiptHoldsQualifiedScores` | src/dithyramba/atlas/semantic_route.py:265-300 | The receipt holds every qualified score with its value, and no other. |
| `SemanticRoute.BuiltReceiptIsFresh` | src/dithyramba/atlas/semantic_route.py:180-216 | A built receipt is fresh for the manifest and query it was built from. |
| `ReceiptTheorems.RefusedExactly` | src/dithyramba/atlas/semantic_route.py:219-263 | Why the builder refuses, error by error in the order of its checks, over pairs, scores and question IDs; otherwise it builds. |
| `ReceiptTheorems.BuiltReceiptSays` | src/dithyramba/atlas/semantic_route.py:265-323 | A built receipt carries query, manifest and threshold, its candidates in order of falling score and rising ID with ranks from one, a forced decision as given, and otherwise routes exactly when some score qualified. |
| `LexicalRouter.Rank` | src/dithyramba/atlas/memory_packet.py:1240-1256 | The scoring loops return the hits sorted by score, then ID. |
| `LexicalRouter.RankingIsExact` | src/dithyramba/atlas/memory_packet.py:642-693 | A record is ranked exactly when its score is positive, and then with at least one matching term, all of them query terms. |
| `LexicalRecords.ScoresExactly` | src/dithyramba/atlas/memory_packet.py:642-693 | Each ranking holds exactly the records whose weighted overlap with the query is positive, with that score and the shared terms, best first and by ID among equals; the weights stand in the statement. |
| `LexicalRouter.CappedIds` | src/dithyramba/atlas/memory_packet.py:1286-1294 | The first distinct IDs of primary, then linked, up to the limit. |
| `LexicalRecords.TopQuestionsExactly` | src/dithyramba/atlas/memory_packet.py:463-465 | The chosen questions fill the limit as far as there are ranked ones, and no unchosen question outranks a chosen one. |
| `LexicalRecords.ChoiceExactly` | src/dithyramba/atlas/memory_packet.py:463-520 | The four choices by record: hypotheses must name a chosen question, events and gaps a chosen question or hypothesis, unless nothing was chosen; none is passed over for one of lower rank, for one merely linked, or for a later linked one; while there is room all are taken. |
| `LexicalRouter.CloseObjectReferences` | src/dithyramba/atlas/memory_packet.py:614-640 | The fixpoint loop ends after one to three passes with the closed questions and hypotheses. |
| `LexicalRouter.ClosureIsLeast` | src/dithyramba/atlas/memory_packet.py:614-640 | The closure is closed, contains the selection and is contained in every other closed superset. |
| `LexicalRouter.Route` | src/dithyramba/atlas/memory_packet.py:445-555 | Succeeds exactly for a non-blank query of at most 4,000 characters, with the packet of the specification; else the error says which of the two failed. |
| `LexicalRouteTheorems.RouteIsAccepted` | src/dithyramba/atlas/memory_packet.py:235-294 | Every packet of the schema 1.0 router is reference-closed and passes its validator, and its match list is empty exactly when it carries no memory. |
| `LexicalRecords.RouteSays` | src/dithyramba/atlas/memory_packet.py:445-555 | The packet of every query: empty when no record shares a term with it, else what the choice and its reference closure name, record by record, with their evidence, sources and relations, and as matches exactly the ranked records among them in order. |
| `JsonText.StringRead` | src/dithyramba/contracts/canonical.py:36-42 | Reading an escaped string gives back the string, for every string, control characters and surrogates included. |
| `JsonText.IntRead` | src/dithyramba/contracts/canonical.py:36-42 | Reading a printed integer gives back the integer, of any size and sign. |
| `JsonPrinter.PrintIsPlain` | src/dithyramba/contracts/canonical.py:36-42 | Sorting members while printing writes the value whose members were sorted beforehand, at every level. |
| `JsonPrinter.TextRoundTrip` | src/dithyramba/contracts/canonical.py:24-42 | The parser undoes the printer up to member order, and printing the parsed value gives the same text; the order is that of `CanonicalText.CanonAscends`. |
| `CanonicalText.CanonAscends` | src/dithyramba/contracts/canonical.py:36-42 | At every level of the sorted value earlier members have smaller keys: equal code points up to a position where the key ends or has the smaller one. |
| `CanonicalText.ParsedMembersAscend` | src/dithyramba/contracts/canonical.py:36-42 | So does the value that a reader of the canonical text gets. |
| `CanonicalText.TextExactly` | src/dithyramba/contracts/canonical.py:36-42 | The printed normal form is the one text that a separate definition on characters allows: JSON punctuation and escapes, minimal decimal integers, members in strictly ascending order of normalized keys, no white space. A tree whose keys collide has none. |
| `JsonMeaning.SameTextExactly` | src/dithyramba/contracts/canonical.py:24-42 | Two values get the same text if and only if they are equal with dictionary members unordered. |
| `Utf8.EncodedInjective` | src/dithyramba/contracts/canonical.py:43 | Texts with the same UTF-8 bytes are the same text. |
| `Utf8.EncodableExactly` | src/dithyramba/contracts/canonical.py:43-46 | The text of a value can be encoded exactly when no string or key holds a lone surrogate. |
| `CanonicalJson.Normalizer.Normalize` | src/dithyramba/contracts/canonical.py:49-105 | Terminates on every finite object graph, cyclic or not, returns what the specification says, and restores the set of open containers on every exit. |
| `CanonicalJson.Normalizer.NormalizeList` | src/dithyramba/contracts/canonical.py:59-75 | The same for a list, stopping at the first failing item. |
| `CanonicalJson.Normalizer.NormalizeDict` | src/dithyramba/contracts/canonical.py:77-101 | The same for a dictionary: entries in insertion order, key type, then collision, then value. |
| `CanonicalJson.Normalizer.NormalizeEntry` | src/dithyramba/contracts/canonical.py:84-98 | One entry; the lookup of the colliding original key never fails. |
| `CanonicalJson.CanonicalJsonBytes` | src/dithyramba/contracts/canonical.py:24-46 | Normalize, print, encode: the canonical bytes or the error; `CanonicalText.CanonicalExactly` says which bytes. |
| `CanonicalTheorems.NormalizesExactly` | src/dithyramba/contracts/canonical.py:49-105 | A graph is accepted exactly when it has a finite unfolding without key collisions, and the result is that unfolding in NFC; shared containers unfold at each use. |
| `CycleDetection.RefusedExactly` | src/dithyramba/contracts/canonical.py:49-105 | A value is refused exactly when a walk from it repeats a container or ends at a float, an unsupported type, a bad key or a collision; the error raised is one that some walk shows. |
| `CycleDetection.CyclesAreReportedExactly` | src/dithyramba/contracts/canonical.py:59-82 | With otherwise valid content a cycle is reported if and only if one can be reached; acyclic sharing is accepted. |
| `CanonicalBytes.AcceptedExactly` | src/dithyramba/contracts/canonical.py:24-46 | The exact condition for having canonical bytes, and what the bytes then are. |
| `CanonicalText.BytesExactly` | src/dithyramba/contracts/canonical.py:43 | The bytes are the shortest UTF-8 form of each code point in turn, by marker and payload bits, and surrogates have none. |
| `CanonicalText.CanonicalExactly` | src/dithyramba/contracts/canonical.py:24-46 | End to end: a value has the canonical bytes exactly when it unfolds to a finite tree with such a text whose UTF-8 form they are. |
| `CanonicalBytes.SameBytesExactly` | src/dithyramba/contracts/canonical.py:24-46 | Two accepted values have the same bytes if and only if their NFC forms are equal with members unordered. |
| `CanonicalBytes.ReencodingIsStable` | src/dithyramba/contracts/canonical.py:24-46 | Parsing the canonical text and encoding the result, however it lies in memory, gives the same bytes. |
| `MarkdownLines.Lines` | src/dithyramba/ingest/parsers.py:174-181 | The offset loop returns the lines of the text. |
| `MarkdownLines.LinesOfTile` | src/dithyramba/ingest/parsers.py:174-181 | Lines tile the text: numbered from one, contents and single line feeds in order, nothing else, and no line holds a line feed. |
| `MarkdownLines.LinesStartExactly` | src/dithyramba/ingest/parsers.py:177 | A line starts at a position exactly when it is the beginning or follows a line boundary. |
| `MarkdownLines.HeadingTextIsExact` | src/dithyramba/ingest/parsers.py:184-206 | A heading line decomposes into at most three spaces, one to six marks, blanks, the text, and at most one set-off run of closing marks with blanks; the text has no blank at either end. The converse is `MarkdownGrammar.HeadingDecided`. |
| `MarkdownGrammar.LinesStartAt` | src/dithyramba/ingest/parsers.py:174-181 | The same with the boundary characters listed by code point. |
| `MarkdownGrammar.HeadingDecided` | src/dithyramba/ingest/parsers.py:184-206 | For every line cut into indent, marks, blanks, text, closing blanks and marks, and trailing blanks: it is a heading exactly when there are at most three spaces, one to six marks, blanks behind them and a visible text, and then with that level, text and span. |
| `MarkdownGrammar.PartsExist` | src/dithyramba/ingest/parsers.py:29-30 | Every line can be cut so. |
| `MarkdownGrammar.OpeningExactly` | src/dithyramba/ingest/parsers.py:209-214 | Which lines open a fence, and which fence: at most three spaces, three or more of one marker, and no backtick behind them. |
| `MarkdownGrammar.ClosingExactly` | src/dithyramba/ingest/parsers.py:217-219 | Which lines close it: at most three spaces, at least as many markers, and blanks. |
| `MarkdownGrammar.FenceExactly` | src/dithyramba/ingest/parsers.py:126-164 | A fence is open before a line exactly when an ordinary line outside every fence opened it and no line since closed it. |
| `MarkdownGrammar.LineIsExactly` | src/dithyramba/ingest/parsers.py:126-164 | What each line is: a member inside a fence; outside, a heading with its parts, a separator when it shows nothing, else a member. |
| `MarkdownGrammar.NewlinesAreReplacements` | src/dithyramba/ingest/parsers.py:87 | Line ends are the two replacements in turn: pairs first, then lone carriage returns. |
| `HeadingContext.PopTo` | src/dithyramba/ingest/parsers.py:137-138 | The pop loop removes the stack's top down to a shallower heading. |
| `HeadingContext.PoppedIsBelow` | src/dithyramba/ingest/parsers.py:137-139 | On a stack of growing levels popping keeps exactly the shallower headings. |
| `HeadingContext.StackStep` | src/dithyramba/ingest/parsers.py:137-139 | One step of the stack is one step of the quadratic definition: the headings all of whose later headings are deeper. |
| `HeadingContext.StackIncreases` | src/dithyramba/ingest/parsers.py:137-139 | Levels grow strictly along the stack. |
| `MarkdownParser.FlushParagraph` | src/dithyramba/ingest/parsers.py:101-124 | Emits the paragraph; the discard of a blank paragraph is never taken, and the fragment constructor never refuses. |
| `MarkdownParser.Fragments` | src/dithyramba/ingest/parsers.py:95-164 | The line loop returns fragments that cover the text: each a heading line or a longest run of paragraph lines, with its heading path, none missing. |
| `MarkdownParser.ParseText` | src/dithyramba/ingest/parsers.py:75-171 | The four refusals in order, else the covering fragments of the lines that `MarkdownGrammar.LineIsExactly` describes. |
| `MarkdownTheorems.EachLineOnce` | src/dithyramba/ingest/parsers.py:126-164 | A blank line outside a fence is in no fragment, every other line in exactly one, a heading fragment exactly when the line is a heading. |
| `MarkdownTheorems.TextIsTheSlice` | src/dithyramba/ingest/parsers.py:104-123 | Fragment text is the text slice at its address, inside its lines. |
| `MarkdownTheorems.SpansAscend` | src/dithyramba/ingest/parsers.py:109-158 | Spans ascend and are disjoint. |
| `MarkdownTheorems.NoFragmentsExactly` | src/dithyramba/ingest/parsers.py:165-166 | There is nothing to extract exactly when every line is blank. |
| `MarkdownTheorems.FragmentsAreDetermined` | src/dithyramba/ingest/parsers.py:95-164 | The covering list of fragments is unique, so the description fixes the parser's result. |
| `FragmentRecords.FragmentsSay` | src/dithyramba/ingest/parsers.py:101-164 | What each fragment says: a heading its line's title, level and span under the enclosing headings and itself; a paragraph a longest run of member lines from the start of the first to the end of the last, under the headings standing there; ordinals count up. |
| `FragmentRecords.PathExactly` | src/dithyramba/ingest/parsers.py:137-139 | The path at a line holds exactly the earlier headings no later one of the same or a higher rank has closed, in order. |
| `XmlPaths.PathsOf` | src/dithyramba/connectors/books.py:1030-1047 | The stack loop gives every element exactly one path, and following it from the root returns the element. |
| `XmlPaths.PathsAreInjective` | src/dithyramba/connectors/books.py:1030-1047 | Two paths lead to one element exactly when they are the same path. |
| `XmlPaths.FollowsDown` | src/dithyramba/connectors/books.py:1030-1047 | The root's path is its tag counted one; a child's is its parent's path and its tag, counted among the children up to it that share namespace and local name. |
| `XmlText.XmlTextUnits` | src/dithyramba/connectors/books.py:968-1007 | One unit per topmost qualifying block, in order, with its text (`XmlUnitText.UnitsHoldTheirBlocks`) and a path back to it, and the dropped tags. |
| `XmlText.DroppedTextTags` | src/dithyramba/connectors/books.py:1010-1027 | The stack loop returns the sorted tags of all visible text outside the chosen blocks. |
| `XmlText.NormalizedIsEmpty` | src/dithyramba/connectors/books.py:1067-1070 | A block's text is empty exactly when all its text nodes are blank; what it is otherwise is `XmlUnitText.BlockTextExactly`. |
| `XmlUnitText.BlockTextExactly` | src/dithyramba/connectors/books.py:1067-1070 | A block's text is a collapse of its text nodes, composed and stripped: each visible character once and in order, one space exactly where white space or a counted boundary stood between two, nothing else. |
| `XmlUnitText.CollapsesToOne` | src/dithyramba/connectors/books.py:1067-1070 | The text nodes have one collapse. |
| `XmlUnitText.UnitsHoldTheirBlocks` | src/dithyramba/connectors/books.py:976-1007 | Each unit has its block's kind, element ID and path, the caption of its kind, and the collapse of its block's text nodes; where composition changes nothing, exactly it. Only tables and definition lists count boundaries. |
| `XmlUnitText.TextsInDocumentOrder` | src/dithyramba/connectors/books.py:1067-1070 | An element's own text stands before its children's pieces, and each child's tail right behind that child's. |
| `XmlUnitText.TagSplitsExactly` | src/dithyramba/connectors/books.py:1050-1060 | A tag in braces splits into namespace and local name; any other tag is its own local name. |
| `XmlConservation.QualifiesExactly` | src/dithyramba/connectors/books.py:979-992 | An element qualifies exactly when its tag is listed and some text below it is visible. |
| `XmlConservation.BlocksAreOrderedAndApart` | src/dithyramba/connectors/books.py:976-1000 | Selected blocks are in document order and pairwise not nested, and every qualifying element lies in one. |
| `XmlConservation.EveryTextIsKeptOrReported` | src/dithyramba/connectors/books.py:968-1027 | Every visible text node is in exactly one block or its owner's tag is reported, and tags are reported for nothing else. |
| `XmlConservation.NothingDroppedMeansAllKept` | src/dithyramba/connectors/books.py:1010-1027 | No tag is reported exactly when the blocks' visible text nodes are all those of the tree, in order. |
| `BookMarkdown.RenderMarkdown` | src/dithyramba/connectors/books.py:1092-1117 | The recorded offsets of every unit hold exactly its text in the rendered document. |
| `BookMarkdown.RenderedExactly` | src/dithyramba/connectors/books.py:1092-1117 | The document starts with the collapsed source name as title and grows by each unit's text behind its heading mark. |
| `EvidenceGate.AssessCandidate` | src/dithyramba/evidence/coverage.py:571-611 | Appends the rejection codes of a candidate in order. |
| `EvidenceGate.NoCodesExactly` | src/dithyramba/evidence/coverage.py:571-611 | No code is left exactly when the candidate meets every condition of the requirement. |
| `EvidenceDecision.CodesExactly` | src/dithyramba/evidence/coverage.py:571-611 | Each rejection code is there exactly when its own condition fails. |
| `EvidenceDecision.LiteralExactly` | src/dithyramba/evidence/coverage.py:645-658 | What a literal's presence means in each matching profile, by positions in the folded text. |
| `EvidenceGate.ValidateCandidateLineage` | src/dithyramba/evidence/coverage.py:674-692 | The one-pass check with two dictionaries returns the first clash in list order. |
| `EvidenceGate.EvaluateRequirement` | src/dithyramba/evidence/coverage.py:508-568 | Coverage of one requirement over the ordered candidates. |
| `EvidenceGate.Evaluate` | src/dithyramba/evidence/coverage.py:435-506 | The whole gate, errors included; `EvidenceDecision.AcceptedExactly` and `EvidenceDecision.DecisionExactly` read its result off the inputs. |
| `EvidenceDecision.AcceptedExactly` | src/dithyramba/evidence/coverage.py:438-450 | Which candidate lists are accepted: no fragment ID twice, and in the profiles that check it sources and families agree on family and group. |
| `EvidenceDecision.DecisionExactly` | src/dithyramba/evidence/coverage.py:451-506 | The decision and the listed requirements from candidates and requirements alone: READY exactly when the question is answerable, every requirement is met by its number of groups and all together by the total; PARTIAL, INSUFFICIENT, GAP_CHALLENGED and GAP_PRESERVED likewise. |
| `EvidenceGateTheorems.CoveredExactly` | src/dithyramba/evidence/coverage.py:508-568 | A requirement is covered exactly when satisfying fragments come from enough independent groups, whatever the order. |
| `EvidenceDecision.CoverageExactly` | src/dithyramba/evidence/coverage.py:508-568 | One requirement's record: the satisfying fragments in order of rank and ID, their sources and groups, and which condition is missing. |
| `EvidenceGateTheorems.ClosestAreClosest` | src/dithyramba/evidence/coverage.py:539-549 | The listed near misses are rejected, at most three, and no unlisted rejected candidate is closer. |
| `EvidenceDecision.CloserExactly` | src/dithyramba/evidence/coverage.py:539-549 | Near misses are ordered by number of codes, rank and fragment ID. |
| `EvidenceDecision.ResultRecords` | src/dithyramba/evidence/coverage.py:435-506 | The rest of the result: the digest of the candidates in order of rank and ID, and one record per requirement, in order. |
| `EvidenceGateTheorems.LineageAcceptsConsistent` | src/dithyramba/evidence/coverage.py:674-692 | The one-pass check accepts exactly the pairwise consistent lists. |
| `EvidenceGateTheorems.ResultIgnoresOrder` | src/dithyramba/evidence/coverage.py:435-506 | Permuting accepted candidates leaves the whole result unchanged. |
| `EvidenceGateTheorems.OutcomeIgnoresOrderExactly` | src/dithyramba/evidence/coverage.py:674-692 | The outcome with its error is independent of the order exactly when not both kinds of clash are present. |
| `EvidenceGateTheorems.OrderChangesTheError` | src/dithyramba/evidence/coverage.py:674-692 | Three candidates whose error changes with their order. |
| `EvidenceGateTheorems.MoreEvidenceNeverLowers` | src/dithyramba/evidence/coverage.py:614-630 | More candidates never uncover a requirement nor lower the decision. |
| `EvidenceGateTheorems.AddingAFragmentNeverLowers` | src/dithyramba/evidence/coverage.py:435-506 | A new fragment that agrees with the lineage on record is accepted, and the decision stands or rises. |
| `ClaimEntailment.BuildCaseSet` | src/dithyramba/answers/entailment.py:199-287 | Binding checks, then one case per claim; the first failing join is the error. |
| `ClaimEntailment.UnquotedLiterals` | src/dithyramba/answers/entailment.py:572-583 | The numeric literals of a claim that no quotation holds, each once, in order. |
| `ClaimEntailment.CasesMirrorClaims` | src/dithyramba/answers/entailment.py:199-287 | A built case set shows each claim's own text, state and joined citations, in order. |
| `ClaimEntailment.JoinedShowsCitations` | src/dithyramba/answers/entailment.py:222-262 | A join shows packet evidence with its own source and exactly the quotation the answer cites. |
| `GateRecords.CaseSetExactly` | src/dithyramba/answers/entailment.py:199-287 | The builder succeeds exactly when task and packet agree and every citation meets packet evidence of its own source; only colliding case addresses can stop it then. The set binds answer, packet and coverage spec, and each case its claim and the numeric literals no quotation holds. |
| `FindingRecords.BuildErrorExactly` | src/dithyramba/answers/entailment.py:222-245 | Which error a failing join raises: that of the first citation, in the order of the claims, that is unjoined, of another source, or without a source. |
| `ClaimEntailment.Duplicates` | src/dithyramba/answers/entailment.py:794-803 | Returns exactly the values that occur more than once. |
| `ClaimEntailment.EvaluateJudgments` | src/dithyramba/answers/entailment.py:656-721 | One result per case, and the closure and span errors in order. |
| `ClaimEntailment.EvaluateEntailment` | src/dithyramba/answers/entailment.py:477-550 | The whole entailment gate. |
| `GateRecords.VerdictTable` | src/dithyramba/answers/entailment.py:742-768 | What each verdict decides for a claim of each state. |
| `GateRecords.SpansAllowedExactly` | src/dithyramba/answers/entailment.py:724-739 | A judgment has no span error exactly when a supporting verdict names no span and every span repeats its part of the claim text, character by character. |
| `GateRecords.EntailmentExactly` | src/dithyramba/answers/entailment.py:477-550 | The decision for every input: unchecked, passed, failed or up for review, by the earlier gates, the receipt, and one judgment per case with its verdict and spans. |
| `FindingRecords.SpanErrorExactly` | src/dithyramba/answers/entailment.py:724-739 | Which span error a judgment raises: spans beside a supporting verdict, or the first span outside the claim text or unlike its part. |
| `FindingRecords.ReasonsExactly` | src/dithyramba/answers/entailment.py:477-550 | One result per case by its first judgment; the reasons for a review are exactly the conditions the receipt fails, each finding with its own, or with none the claims left uncertain. |
| `AnswerProjection.ProjectionTextFindings` | src/dithyramba/answers/projection.py:570-580 | Completeness and span findings over the displayed answer. |
| `AnswerProjection.ClaimRouteFindings` | src/dithyramba/answers/projection.py:636-671 | The findings that a proposition's premises add, in order; framing has none. |
| `AnswerProjection.EvaluateProjection` | src/dithyramba/answers/projection.py:407-528 | The whole projection gate with its precedence of findings. |
| `GateRecords.PremiseExactly` | src/dithyramba/answers/projection.py:636-671 | A premise holds exactly when the answer has the claim and the last result for it passed with a supporting verdict; for a fact, direct support of a factual claim. |
| `GateRecords.SpellsExactly` | src/dithyramba/answers/projection.py:570-580 | The text checks pass exactly when the spans end with the answer and each proposition is its part of it. |
| `GateRecords.DisplayExactly` | src/dithyramba/answers/projection.py:407-528 | Passed, failed or up for review, for every input: by binding, spelling, one role judgment per proposition from an intact receipt, and the premises of each span. |
| `FindingRecords.RoleFindingsExactly` | src/dithyramba/answers/projection.py:583-633 | Each finding about a role receipt is there exactly when its own condition fails. |
| `FindingRecords.ReportExactly` | src/dithyramba/answers/projection.py:407-528 | Every violation and every reason for a review is reported exactly when its own condition holds: binding, then spelling, then the role receipt, then each span's role and premises. |
| `FindingRecords.CoveragesExactly` | src/dithyramba/answers/projection.py:407-528 | One record per span, in order: its kind, premises and role verdict, closed exactly when nothing is wrong with it; unjudged when the gate stopped before the spans. |
| `AnswerSoundness.EntailmentPassesExactly` | src/dithyramba/answers/entailment.py:477-550 | The entailment gate passes exactly when the earlier gates accepted this answer and an intact, bound, in-policy receipt answers the cases one to one with verdicts their claims can accept. |
| `AnswerSoundness.EntailmentFailsExactly` | src/dithyramba/answers/entailment.py:742-768 | The gate fails, rather than asking for review, exactly when nothing is wrong with the receipt and some claim's judgment refutes it; the violations are then exactly those claims. |
| `AnswerSoundness.TextPassesExactly` | src/dithyramba/answers/projection.py:186-202 | The text checks pass exactly when the proposition texts concatenate to the short answer. |
| `AnswerSoundness.DisplayPassesExactly` | src/dithyramba/answers/projection.py:407-528 | The exact condition for display. |
| `AnswerSoundness.PremiseFailsOnlyThus` | src/dithyramba/answers/projection.py:636-671 | After a passed entailment a premise fails only when the answer lacks the claim or a fact rests on an inference. |
| `AnswerSoundness.DisplayIsSound` | src/dithyramba/answers/projection.py:407-528 | Over the builder's case set and the gate's own result, a display pass means: the propositions spell exactly the short answer, every premise has exactly one supporting judgment given on its own words and quotations, and every fact rests only on supported or qualified claims judged directly supported. |
| `AccessCompiler.CompileAccess` | src/dithyramba/access/compiler.py:38-137 | The loop's value or error is a function of the set of candidates. |
| `AccessCompiler.PermittedExactly` | src/dithyramba/access/compiler.py:66-112 | A fragment is permitted exactly when it has a relevant membership, all relevant ones are active and allowed, and no exclusion or source deny hits it. |
| `AccessCompiler.PermittedItemIsWellFormed` | src/dithyramba/access/models.py:269-282 | A permitted item passes its own constructor: collections sorted, unique, not empty, all requested. |
| `AccessRecords.ShowsExactly` | src/dithyramba/access/compiler.py:101-107 | A granted candidate yields one item: its metadata, and exactly its requested collections in ascending order. |
| `AccessRecords.CompiledExactly` | src/dithyramba/access/compiler.py:38-137 | The whole outcome by fields of policy, request and candidates: the three errors in order, else the manifest of exactly the granted items by fragment ID, the token's five hashes and names, and whether policy alone withheld something. |
| `AccessCompiler.OutcomeIgnoresOrder` | src/dithyramba/access/compiler.py:38-137 | Neither order nor repetition of candidates changes the value or the conflict error. |
| `AccessCompiler.DeniedCandidatesAreInvisible` | src/dithyramba/access/compiler.py:100-137 | Removing candidates that are not permitted leaves manifest and token unchanged. |
| `AccessCompiler.MoreExclusionsShrink` | src/dithyramba/access/compiler.py:66-137 | More exclusions shrink the permitted set to exactly what they do not name, never cause a failure and never reveal a policy denial. |
| `LiteralSearch.SearchLoop` | src/dithyramba/lexical.py:46-66 | The loop over successive finds ends and returns true exactly when some occurrence, overlapping ones included, respects the word boundaries at both ends. |
| `LiteralSearch.FoldedLiteralPresent` | src/dithyramba/lexical.py:46-66 | The same for the folded search. |
| `LiteralSearch.StrictLiteralPresent` | src/dithyramba/lexical.py:83-105 | The same for the strict search. |
| `LiteralSearch.PresentMeansWord` | src/dithyramba/lexical.py:46-105 | A literal made of word characters is found exactly when it is one of the text's words. |

## Left out

- RouteIsAccepted: the field length caps of schema 1.0 packets are not part of the acceptance, because the reference closure can exceed them.
- ReadValue: reads the printer's own dialect (`\u00XX` escapes, no white space), not all of RFC 8259; it is the inverse the round trip needs.
- Normalize: error messages carry a path in the code; the model keeps the kind of error and the colliding key.
- Normalize: recursion depth and the interpreter's limit on integer digits are not modelled.
- ParseText: UTF-8 decoding of the source bytes is a parameter that may fail; PDF sources and the parser's process isolation are not part of this model.
- XmlTextUnits: locator labels, profile limits, and ZIP and XML parsing are not part of this model; paths are step sequences, because namespace text may contain the separators of their string form.
- EvidenceGate: where the code lists a set in sorted order (matched sources, matched groups) the model keeps the set; source addresses and display metadata are omitted.
- LexicalRouter: matched terms are kept as sets where the code sorts them.
- SemanticRoute: scores are reals; the hexadecimal float form and its parsing are omitted.
- AtlasModels: per-record evidence boundaries and exact trace-span offsets are checked by the code before any router runs and are not needed here.
- AccessCompiler: `verify_permitted_token` compares fields and is omitted.
- Folding and strict normalization of text are parameters; their loops over Unicode tables are not modelled and no idempotence is claimed for them.
- CLI, HTTP applications, persistence, backup and restore, recall and release tooling: input and output dominate.
