# Operator-script algorithms, proved

A Dafny project about the deterministic algorithms in the operator scripts of a SOC assistant: a control queue
between a backend and a host watcher, two importers that rewrite one knowledge base, data-set gates, matchers with
abstention, parsers, a mapping pipeline over three scripts, and frozen baselines. Each module models one script or
one group of scripts that interact:

- `ControlQueue` – the request directory shared by backend and host watcher: a step machine with interleaved
  enqueues and a crash possible between any two watcher steps, and a class whose loop is shown to be a run of it.
- `KnowledgeImport` – two importers rewriting the same two files, with their drift checks; runs may stop half way.
- `AtlasMatrix`, `AtlasNodes` – the collapse to one row per technique, the duplicate report and the integrity gate.
- `RoutingGate` – the no-regression gate over routing evaluations, and the two-arm summary.
- `CatalogueBind` – three argmax matchers with floor and margin, and the sweeps that count over them.
- `BraceScanner` – the one-pass recovery of the last JSON object in mixed output.
- `CoverageMatrix`, `Crosswalk`, `ValidationSheets` – the mapping pipeline from question to demo sheet.
- `SentinelSet` – the greedy allocation of a frozen evaluation set.
- `ProbeBaseline`, `ExecutionBaseline` – freeze-and-check gates; the first reads back its own rendered report.
- `OrderStatistics`, `CvePagination` – percentiles, and paging through a vulnerability collection.
- `EnvStems` – the guarded, in-place abstraction of templates to environment placeholders.
- `Ordering`, `PyText`, `Options` – stable sorting and the text operations the scripts use.

Loops over mutable state are methods with invariants, each proved equal to a function of its inputs; the laws are
lemmas about those functions. The watcher's directory and the rewritten templates are modelled as mutable state.
JSON printing and parsing, file digests, systemctl, the logarithm, the similarity function, the vulnerability
server and the environment profile are parameters. Scores and percentiles are real numbers; the production
matcher's confidence is in hundredths.

## What the code does that its descriptions do not say

- Watcher: only undecodable JSON and read errors are caught (`scripts/llm_control_watcher.py:65-69`). A request
  that is not UTF-8, or is JSON but not an object, raises out of the pass, stays in the directory, and blocks all
  requests that sort after it (`RaisingRequestBlocks`; `PassDrains` gives the exact condition). The backend itself
  writes only well-formed requests; such a file has to come from elsewhere.
- Gate: a row that stops being ambiguous can hide a regression from a chain of passing comparisons
  (`LostAmbiguityNotTransitive`; `TransitiveIff` gives the exact condition).
- Binder: with the margin 0.0 that the sweep includes, the binding can depend on the catalogue's order
  (`TyingCatalogue`; `CatalogueOrderIff` gives the exact condition).
- Crosswalk: the test of a template's `enabled` flag has no effect, because a disabled active template falls through
  to the line that returns its status (`EnabledFlagIgnored`).
- Sheets: cases A and B can never have an example, since use-case rows carry no question id (`CasesOfCrosswalk`).
- Capture: differing mirrors are recorded with a warning, and the next check then fails (`CaptureThenCheck`).
- Paging: an empty page before the end silently truncates the result (`CompleteIff`, and `CappedIff` with a cap).
- Importers: the two files are written one after the other, so a run on changed sources that stops in between leaves
  entries whose documents are gone (`TornRunDangles`; `EntriesResolveIff` gives the exact condition).
- Brace scanner: braces inside strings count, so an unbalanced one hides its object (`ObjectIsCandidateIff`).
- Probe report: a carriage return in a cell reads back as a newline, so a cell can open a block before the report's own
  (`CarriageReturnHijacks`; `OwnBlockIff` gives the exact condition).
- Templates: the word boundary is Unicode but the name classes are ASCII, so a template whose names are followed by an
  accented letter is reported as abstracted on every run and never gets a placeholder (`AccentedIsStuck`; `MarkedIff`
  gives the exact condition).
- Duplicate report: keys `id|tactic` of different pairs can coincide, and then it counts too few duplicates
  (`KeysCollide`; `SameTacticCountIff` gives the exact condition). Its verdict of "none" is exact all the same
  (`SameTacticIff`).

Two conditions on which the results rest are met by the repository itself. The routing gate needs distinct row ids: the
evaluation rejects a truth set with repeated ids before it compares (`scripts/eval_routing_truth_set.py:293-298`), and
`DuplicateIds` shows that this check is exact. The allocator's success depends on the order of the categories, as the
script says where it lists them (`scripts/build_sentinel_set.py:69-71`); `UnsharedSucceedsIff` and
`UnsharedOrderHarmless` say when it does not.

## Model

| member | source | states |
|---|---|---|
| `ControlQueue.GlobSelectsRequests` | scripts/llm_control_watcher.py:55-64 | the glob picks up published requests only: never the result, its temporary file, or a request still being staged; distinct files never share a name |
| `ControlQueue.Apply` | scripts/llm_control_watcher.py:42-52 | success iff the action is restart, stop or start and one of the two commands exits with 0, and it names the first that did; systemctl_failed iff the action is allowed and neither does; invalid iff it is not allowed; sudo is run for exactly the allowed actions and plain systemctl iff sudo did not succeed |
| `ControlQueue.StepKeepsInv` | scripts/llm_control_watcher.py:62-81 | every step of backend or watcher, a crash included, keeps: the work list names files that are present; a file disappears only after its request was published, was undecodable or could not be read; applications = completions + interruptions + the one in flight; the published result belongs to a handled request |
| `ControlQueue.RunKeepsInv` | scripts/llm_control_watcher.py:62-94 | the same over every interleaving of any length |
| `ControlQueue.OnlyAllowedActions` | scripts/llm_control_watcher.py:28-53 | in every run only restart, stop and start are ever handed to systemctl |
| `ControlQueue.HandledBeforeRemoved` | scripts/llm_control_watcher.py:65-80 | a readable well-formed request is gone from the directory only if it was handled |
| `ControlQueue.AppliedOncePlusCrashes` | scripts/llm_control_watcher.py:71-80 | a request is applied at most once plus the number of crashes between its apply and its unlink; an exact balance of applications, completions, interruptions and work in flight |
| `ControlQueue.ResultIsComplete` | scripts/llm_control_watcher.py:55-59 | the published result is absent or the whole record of a request that was enqueued and handled, never a partial file, and it says invalid_action iff the action is not one of the three |
| `ControlQueue.PassCompletes` | scripts/llm_control_watcher.py:64-80 | with enqueues interleaved: a pass that no listed request makes raise and that reaches the end of its list without a crash has removed every request it listed, each for an accounted reason |
| `ControlQueue.BlockedArises` | scripts/llm_control_watcher.py:64-68 | a request that raises, published while the watcher is idle, starts the following blockage |
| `ControlQueue.RaisingRequestBlocks` | scripts/llm_control_watcher.py:64-68 | a request that is not UTF-8 or not a JSON object is neither dropped nor handled: it raises out of the pass and, in every run however often the watcher restarts, nothing that sorts after it is ever handled or removed until a read of it fails |
| `ControlQueue.PassExact` | scripts/llm_control_watcher.py:62-81 | a crash-free pass removes exactly the requests before the first raising one, returns the number of well-formed ones among them, and raises exactly if there is a raising one |
| `ControlQueue.PassResult` | scripts/llm_control_watcher.py:64-81 | a pass leaves as the result that of the last well-formed request before the first raising one, telling how its commands ended, and without any the result there was |
| `ControlQueue.PassDrains` | scripts/llm_control_watcher.py:62-81 | a pass empties the queue if and only if no request raises |
| `ControlQueue.Watcher.Listing` | scripts/llm_control_watcher.py:64 | the snapshot lists exactly the published requests, sorted by file name, without repeats |
| `ControlQueue.Watcher.WriteResult` | scripts/llm_control_watcher.py:55-59 | writing the temporary file and replacing leaves the new record as the result, no temporary file, and every other file untouched |
| `ControlQueue.Watcher.ProcessOne` | scripts/llm_control_watcher.py:65-80 | one loop body: which files remain, whether it was counted, whether it raised, that the published result tells truthfully how the commands ended, and that what it did is a run of the step machine |
| `ControlQueue.Watcher.ProcessPending` | scripts/llm_control_watcher.py:62-81 | files, count and exception of a pass are those of the specification, and the pass is itself a run of the step machine from idle to idle |
| `ControlQueue.RenameKeepsInv` | backend/app/llm/runtime_control.py:61-65 | the backend's rename of a fully written file to a fresh name keeps the protocol invariant |
| `KnowledgeImport.PrefixesDisjoint` | scripts/import_skill_knowledge_to_kb.py:146-148 | no row belongs to both importers; each recognises exactly the text ids with its prefix, although one reads a null id as empty text and the other as the text None |
| `KnowledgeImport.MergeAtlas` | scripts/import_atlas_narratives_to_kb.py:103-115 | the merged file is the untouched rows in order, the new rows in order of id with those of one id as they came, then the skill rows |
| `KnowledgeImport.BuildAtlasPayload` | scripts/import_atlas_narratives_to_kb.py:26-100 | the loop yields one document and one entry for each importable row, skipping the others |
| `KnowledgeImport.AtlasPayloadOwn` | scripts/import_atlas_narratives_to_kb.py:38-71 | every generated row carries the ATLAS prefix and every entry names a generated document, for every input |
| `KnowledgeImport.BuildSkillPayload` | scripts/import_skill_knowledge_to_kb.py:130-143 | the loop over records sorted by key yields the documents and entries of exactly the records with a checklist or a workflow |
| `KnowledgeImport.EntriesFor` | scripts/import_skill_knowledge_to_kb.py:71-127 | one entry for each of the four sections that has items, in the order of the source |
| `KnowledgeImport.SkillPayloadOwn` | scripts/import_skill_knowledge_to_kb.py:38-98 | every generated row carries the skill prefix and every entry names a generated document |
| `KnowledgeImport.MergeGroups` | scripts/import_atlas_narratives_to_kb.py:103-115 | how base, ATLAS and skill rows of a file change under one merge of either importer |
| `KnowledgeImport.MergeAllGroups` | scripts/import_skill_knowledge_to_kb.py:146-148 | an invariant of any sequence of merges, each with its own rows: base rows never change, and each importer's group is what it wrote last |
| `KnowledgeImport.MergesConverge` | scripts/import_atlas_narratives_to_kb.py:103-115 | any sequence of merges in which each importer writes ends in base rows, the sorted ATLAS rows written last, the skill rows written last |
| `KnowledgeImport.CanonicalIsFixed` | scripts/import_skill_knowledge_to_kb.py:146-148 | both merges leave a file alone if and only if it has that canonical form |
| `KnowledgeImport.MergeFixesIff` | scripts/import_atlas_narratives_to_kb.py:103-115 | on a canonical file a merge with newly generated rows changes nothing iff they are those written last; of ATLAS rows only the order of those with one id counts |
| `KnowledgeImport.PlayFileByFile` | scripts/import_skill_knowledge_to_kb.py:156-178 | a sequence of runs, including runs stopped between the two writes, acts on each file as the sequence of its own writes |
| `KnowledgeImport.RunsConverge` | scripts/import_atlas_narratives_to_kb.py:118-139 | confluence of the two importers on the two files as text, with sources that may change between runs: once each has completed a run, the disk depends only on what each wrote last to each file |
| `KnowledgeImport.RunsSettle` | scripts/import_atlas_narratives_to_kb.py:107-115 | after such a sequence each file is its untouched base rows, the ATLAS rows in order of id with those of one id as generated last, and the skill rows generated last |
| `KnowledgeImport.SameInputsConverge` | scripts/import_atlas_narratives_to_kb.py:118-139 | with unchanged sources it does not depend on order, repetition or interrupted runs at all |
| `KnowledgeImport.ChecksPassIffCanonical` | scripts/import_atlas_narratives_to_kb.py:127-135 | both drift checks pass if and only if the disk is canonical, and then every further run on the same sources is a no-op |
| `KnowledgeImport.CheckPassesIff` | scripts/import_skill_knowledge_to_kb.py:165-173 | after any such sequence of runs a drift check passes iff its importer would generate now, for both files, what it wrote last |
| `KnowledgeImport.ConvergedDiskPasses` | scripts/import_skill_knowledge_to_kb.py:165-173 | so with unchanged sources each drift check passes afterwards |
| `KnowledgeImport.RunKeepsOtherCheck` | scripts/import_skill_knowledge_to_kb.py:165-173 | a run of one importer, whatever it generates, never makes the other's passing check fail |
| `KnowledgeImport.BaseRowsKept` | scripts/import_skill_knowledge_to_kb.py:146-148 | no run loses, changes or reorders a row that belongs to neither importer |
| `KnowledgeImport.OwnRowsPresent` | scripts/import_atlas_narratives_to_kb.py:107-115 | after an importer has written, the rows with its prefix are exactly those of its last write |
| `KnowledgeImport.EntriesResolveIff` | scripts/import_atlas_narratives_to_kb.py:136-137 | the entries of an importer on the disk name documents of its own there iff the entries it wrote last name documents it wrote last |
| `KnowledgeImport.EntriesResolve` | scripts/import_skill_knowledge_to_kb.py:71-98 | after a run that was not stopped half way, and until its importer's next one, every entry the importer owns names a document that is there |
| `KnowledgeImport.TornRunDangles` | scripts/import_skill_knowledge_to_kb.py:175-176 | a run on changed sources that stops between its two writes leaves entries whose documents are gone |
| `KnowledgeImport.GeneratedRuns` | scripts/import_atlas_narratives_to_kb.py:26-100 | what the two scripts really build satisfies the assumptions of these results, for every input |
| `AtlasMatrix.FrequencyByTechnique` | scripts/atlas_normalize.py:51-55 | an id is in the frequency map iff it is non-blank and some row has it, and its score is that of its last row |
| `AtlasMatrix.CollapseRows` | scripts/atlas_normalize.py:56-70 | the in-place loop over rows computes the collapse |
| `AtlasMatrix.Normalize` | scripts/atlas_normalize.py:48-81 | one technique per non-blank id, in order of id, each with the sorted tactics of its rows, for each tactic the score of the last scored row, and as case-study score that of the last frequency row of its id, or 0 without one; and the count |
| `AtlasMatrix.CollapseDescribed` | scripts/atlas_normalize.py:56-70 | without the loop: a technique is present iff some row has its id; its tactics are the non-blank tactics of its rows; each tactic's score is that of the last scored row |
| `AtlasMatrix.OrderIrrelevantIff` | scripts/atlas_normalize.py:56-70 | the collapse is the same for every order of the rows if and only if no technique has two different scores under one tactic |
| `AtlasMatrix.Analyze` | scripts/atlas_duplicate_check.py:49-98 | the report's counts, cross-tactic, same-tactic and parent tables say exactly what the rows contain |
| `AtlasMatrix.LosslessIff` | scripts/atlas_duplicate_check.py:68-72 | reading the collapsed rows back gives a permutation of the raw rows if and only if all ids and tactics are stripped and non-blank and the report lists no same-tactic duplicate |
| `AtlasMatrix.SameTacticIff` | scripts/atlas_duplicate_check.py:68-72 | although keys joining id and tactic may collide, the same-tactic table is empty iff no pair repeats |
| `AtlasMatrix.SameTacticCountIff` | scripts/atlas_duplicate_check.py:68-72 | the number of same-tactic duplicates is that of the repeated pairs iff no two of these pairs share a key, and smaller otherwise |
| `AtlasMatrix.BarFreeCount` | scripts/atlas_duplicate_check.py:68-72 | with ids that hold no bar the number is right |
| `AtlasMatrix.KeysCollide` | scripts/atlas_duplicate_check.py:69-71 | concrete rows with two repeated pairs of which the report counts only one |
| `AtlasMatrix.GateGivesOrderIndependence` | scripts/atlas_duplicate_check.py:68-72 | an empty same-tactic table makes the normalised result independent of row order |
| `AtlasMatrix.CountsAgree` | scripts/atlas_normalize.py:81 | for all rows the normaliser's technique count equals the report's distinct count |
| `AtlasMatrix.ParentsAreTop` | scripts/atlas_duplicate_check.py:42-46 | a reported parent is present, shorter, its own parent, and never reported as a sub-technique |
| `AtlasMatrix.ParentIs` | scripts/atlas_duplicate_check.py:42-46 | the parent of an id with two dots or more is what stands before its second dot; any other id is its own parent |
| `AtlasNodes.FirstPass` | scripts/atlas_nodes_duplicate_check.py:76-85 | entity counts and the id set are exactly those of the rows; the duplicate table lists exactly the ids with more rows than entities, each with one more than the surplus |
| `AtlasNodes.UnrepeatedIff` | scripts/atlas_nodes_duplicate_check.py:78-85 | no id has surplus rows if and only if no id repeats within an entity |
| `AtlasNodes.SecondPass` | scripts/atlas_nodes_duplicate_check.py:87-118 | the length of the dangling list: one per malformed cell and one per malformed or unresolved reference of the others |
| `AtlasNodes.CheckCells` | scripts/atlas_nodes_duplicate_check.py:98-118 | what one row adds to that list, cell by cell |
| `AtlasNodes.BadTotalZero` | scripts/atlas_nodes_duplicate_check.py:87-118 | nothing dangles iff every cell is a list of well-formed ids that exist |
| `AtlasNodes.Analyze` | scripts/atlas_nodes_duplicate_check.py:69-140 | the gate passes if and only if entity counts match, no id repeats within an entity, and every reference is well-formed and resolves |
| `AtlasNodes.PassingCounts` | scripts/atlas_nodes_duplicate_check.py:41-46 | a passing table has 16 tactics, 170 techniques, 57 case studies and 35 mitigations |
| `AtlasNodes.ValidIdIs` | scripts/atlas_nodes_duplicate_check.py:56 | a well-formed id is AML., one of T, TA, CS and M, a digit, and anything |
| `AtlasNodes.SoundOrderIndependent` | scripts/atlas_nodes_duplicate_check.py:69-140 | the verdict does not depend on row order |
| `RoutingGate.Compare` | scripts/eval_routing_truth_set.py:245-268 | the failures, in order: regressions and new inconsistencies row by row, then one for missing ids |
| `RoutingGate.CompareEmptyIff` | scripts/eval_routing_truth_set.py:245-268 | no failure is reported iff no gating row is worse than the baseline row of its id and no baseline id is missing |
| `RoutingGate.FailuresAre` | scripts/eval_routing_truth_set.py:249-268 | a regression is reported exactly for gating rows that were right and are wrong, an inconsistency exactly for gating rows that were consistent and are not, and the missing ids in order |
| `RoutingGate.DuplicateIds` | backend/app/evals/routing_truth_set.py:242-249 | the validation before a run reports, sorted, exactly the ids that occur more than once; it reports none iff the ids are distinct |
| `RoutingGate.ReflexiveIff` | scripts/eval_routing_truth_set.py:247-268 | a run passes against itself iff no gating row is worse than the last row of its id |
| `RoutingGate.GateReflexive` | scripts/eval_routing_truth_set.py:293-298 | so a validated run, whose ids are distinct, passes against itself |
| `RoutingGate.RepeatedIdsNotReflexive` | scripts/eval_routing_truth_set.py:247 | `compare` alone, without the validation that precedes it, can reject a run with repeated ids against itself |
| `RoutingGate.TransitiveIff` | scripts/eval_routing_truth_set.py:247-268 | what passes against b passes against every baseline b passed against, iff every gating row that was ambiguous in b is right and consistent |
| `RoutingGate.GateTransitive` | scripts/eval_routing_truth_set.py:247-268 | under that condition passing is transitive |
| `RoutingGate.LostAmbiguityNotTransitive` | scripts/eval_routing_truth_set.py:253-254 | three runs for which it is not: a row that stops being ambiguous hides a regression from two passing comparisons |
| `RoutingGate.ChainPasses` | scripts/eval_routing_truth_set.py:245-268 | along a chain of runs each passing against its predecessor and meeting that condition, every run passes against every earlier one |
| `RoutingGate.ChainRatchet` | scripts/eval_routing_truth_set.py:245-268 | along such a chain no id disappears and no gating row is ever worse than any earlier row of its id |
| `RoutingGate.PassKeepsCounts` | scripts/eval_routing_truth_set.py:176-206 | for fixed labels a pass means route_ok does not fall and capability_inconsistent does not rise over the baseline's rows |
| `RoutingGate.ChainKeepsCounts` | scripts/eval_routing_truth_set.py:176-206 | the same between any two runs of a chain |
| `RoutingGate.ArmsConserve` | scripts/eval_routing_truth_set.py:222-234 | live_route_ok = deterministic ok + improved - degraded - errors on deterministically ok rows; the five delta classes partition the rows |
| `RoutingGate.DeltaIs` | scripts/eval_routing_truth_set.py:92-102 | each delta class by its own condition: error, same, degraded, improved, lateral |
| `RoutingGate.Summarize` | scripts/eval_routing_truth_set.py:176-206 | the numbers of gating, right, wrong and inconsistent rows, ambiguous ones not counted |
| `RoutingGate.CountBy` | scripts/eval_routing_truth_set.py:238-242 | each value once with its number of occurrences, most frequent first, ties by value |
| `CatalogueBind.DecideIff` | scripts/eval_catalogue_bind_experiment.py:58-62 | with a positive margin an entry is bound iff it occurs once, reaches the floor and beats every other entry by the margin |
| `CatalogueBind.DecidePermutation` | scripts/eval_catalogue_bind_experiment.py:58-62 | with a positive margin the decision is the same for every order of the scored list |
| `CatalogueBind.DecideWithoutMargin` | scripts/eval_catalogue_bind_experiment.py:58-62 | with margin zero or below something is bound iff the top score reaches the floor, and then a top entry is bound |
| `CatalogueBind.OrderIndependentIff` | scripts/eval_catalogue_bind_experiment.py:58-62 | the decision on a scored list is independent of its order iff the margin is positive or no two different entries tie at the top at or above the floor |
| `CatalogueBind.CatalogueOrderIff` | scripts/eval_catalogue_bind_experiment.py:43-62 | the coverage matcher binds the same for every order of the catalogue, document frequencies recomputed, iff the margin is positive or no two use cases tie at the top at or above the floor |
| `CatalogueBind.LaterTwinNeverBound` | scripts/eval_catalogue_bind_experiment.py:48-62 | in any catalogue, under any floor and margin, a use case listed only after another with the same terms is never bound |
| `CatalogueBind.TyingCatalogue` | scripts/eval_catalogue_bind_experiment.py:135-139 | a concrete catalogue and query for which the two orders bind different use cases at margin 0.0 |
| `CatalogueBind.StricterKeepsOrAbstains` | scripts/eval_catalogue_bind_experiment.py:60-62 | raising floor and margin keeps the binding or abstains, never switches |
| `CatalogueBind.BuildDf` | scripts/eval_catalogue_bind_experiment.py:43-46 | the counter holds, for each word, the number of use cases whose terms contain it |
| `CatalogueBind.BindCoverage` | scripts/eval_catalogue_bind_experiment.py:48-62 | the loop, sort and thresholds compute the coverage decision |
| `CatalogueBind.MatchesAre` | scripts/eval_catalogue_bind_experiment.py:52 | a term matches iff it occurs in the query in lower case, and it counts as often as it is listed |
| `CatalogueBind.NormalIs` | scripts/eval_catalogue_bind_experiment.py:49 | normalising keeps the words of the query in lower case and nothing of its spacing |
| `CatalogueBind.ScoreIs` | scripts/eval_catalogue_bind_experiment.py:54-56 | the score times the number of query words is the sum, over all words of all matched terms, of ln(1 + catalogue size / (1 + number of use cases listing the word)) |
| `CatalogueBind.UniformScore` | scripts/eval_catalogue_bind_experiment.py:54-56 | k matched words of one specificity v in a query of n words score (k/n) v |
| `CatalogueBind.TwoWordTerm` | scripts/eval_catalogue_bind_experiment.py:48-62 | the exact score of a two-word term of the only use case, and that it is bound iff the score reaches the floor |
| `CatalogueBind.TwoWordTermAbstains` | scripts/eval_catalogue_bind_experiment.py:48-62 | in a five-word request that score stays below the default floor |
| `CatalogueBind.CoverageBindsIff` | scripts/eval_catalogue_bind_experiment.py:48-62 | with a positive margin a use case is bound iff it is listed once, has a matching term, reaches the floor and beats every other matching one by the margin |
| `CatalogueBind.CoverageOrderIndependent` | scripts/eval_catalogue_bind_experiment.py:43-62 | with a positive margin the bound use case is the same for every order of the catalogue, document frequencies recomputed |
| `CatalogueBind.AddedEntry` | scripts/eval_catalogue_bind_experiment.py:71-74 | adding one scored entry anywhere keeps the decision, abstains, or binds the new entry |
| `CatalogueBind.CosineIndexGrows` | scripts/eval_catalogue_bind_experiment.py:65-74 | the same for adding one use case to the cosine index |
| `CatalogueBind.BindCurrent` | scripts/eval_catalogue_bind_experiment.py:32-40 | the running best is the first use case with the most matches, up to saturation at seven; none iff nothing matches |
| `CatalogueBind.Sweep` | scripts/eval_catalogue_bind_experiment.py:104-114 | the counters of one sweep cell are the numbers of false knowledge binds, missed and recalled procedures; missed and recalled add up to the forbidden rows |
| `CatalogueBind.SweepMonotone` | scripts/eval_catalogue_bind_experiment.py:132-148 | over any corpus, raising floor or margin never increases false knowledge binds and never decreases missed procedures |
| `BraceScanner.CandidatesExact` | scripts/eval_plan6_f3_failure_classes.py:96-110 | the scanner's candidates are exactly the top-level balanced segments |
| `BraceScanner.SegmentsDisjoint` | scripts/eval_plan6_f3_failure_classes.py:96-110 | top-level segments never overlap |
| `BraceScanner.CandidatesOrdered` | scripts/eval_plan6_f3_failure_classes.py:96-110 | candidates come in textual order |
| `BraceScanner.LastJsonObject` | scripts/eval_plan6_f3_failure_classes.py:93-111 | the one-pass scan returns the last top-level segment that parses to an object with a trace id |
| `BraceScanner.RecoveredIs` | scripts/eval_plan6_f3_failure_classes.py:93-111 | without the scanner: the object of the last top-level segment that parses to an object with a trace id, and nothing iff there is none |
| `BraceScanner.CandidatesConcat` | scripts/eval_plan6_f3_failure_classes.py:96-110 | after text that ends at depth zero the candidates of what follows are merely shifted |
| `BraceScanner.RecoveredConcat` | scripts/eval_plan6_f3_failure_classes.py:93-111 | after text at depth zero, scanning s + t gives t's result if it has one and s's otherwise |
| `BraceScanner.ObjectIsCandidateIff` | scripts/eval_plan6_f3_failure_classes.py:96-110 | a printed object becomes a candidate iff the text before it ends at depth zero and its own braces, those in strings included, balance only at its end |
| `BraceScanner.PrintedObjectsRecovered` | scripts/eval_plan6_f3_failure_classes.py:93-111 | of any number of printed objects amid brace-free noise the last traced one is recovered |
| `BraceScanner.BraceInString` | scripts/eval_plan6_f3_failure_classes.py:100-104 | an unbalanced brace in a string can hide an object |
| `CoverageMatrix.BuildIndex` | scripts/build_skill_coverage_matrix.py:87-186 | an index built by overwriting agrees with searching the list from its end |
| `CoverageMatrix.IndexByTemplate` | scripts/build_skill_coverage_matrix.py:189-201 | the inverse index files exactly the use cases whose default template it is, and no empty group |
| `CoverageMatrix.BuildIndexes` | scripts/build_skill_coverage_matrix.py:460-486 | all indexes of a generation run are exact for the loaded sources |
| `CoverageMatrix.ResolveTemplateIff` | scripts/build_skill_coverage_matrix.py:259-277 | a template resolves to u iff u is its only catalogue use case or, failing a single one, its registered use case that the catalogue lists |
| `CoverageMatrix.ResolveIff` | scripts/build_skill_coverage_matrix.py:230-277 | through the indexes the resolver returns u exactly when brute-force search of the sources finds it defensible: it never guesses and never misses |
| `CoverageMatrix.ResolveLabels` | scripts/build_skill_coverage_matrix.py:253-277 | status, source and confidence: curated with its own confidence or high, mapped with high confidence if a single use case is filed under the template and medium otherwise, missing iff nothing is defensible |
| `CoverageMatrix.UnlistedIsCurated` | scripts/build_skill_coverage_matrix.py:253-277 | a use case outside the catalogue can only come from the curated map |
| `CoverageMatrix.BuildRows` | scripts/build_skill_coverage_matrix.py:373-457 | the loop's rows, sorted, and its warnings in order |
| `CoverageMatrix.RowStatusIs` | scripts/build_skill_coverage_matrix.py:280-293 | a row's template status: the enrichment record's if there is one, else active, planned or unavailable by manifest entry and readiness |
| `CoverageMatrix.MatrixShape` | scripts/build_skill_coverage_matrix.py:398-457 | one row per well-formed entry, sorted by question id |
| `CoverageMatrix.MatrixOrderIndependent` | scripts/build_skill_coverage_matrix.py:398-457 | for distinct question ids the matrix does not depend on the order of the runtime map |
| `CoverageMatrix.CatalogWarningsAreCurated` | scripts/build_skill_coverage_matrix.py:420-424 | the warning that a use case is not in the catalogue fires only for curated questions |
| `Crosswalk.CollapseLiveSkill` | scripts/build_soc_capability_crosswalk.py:107-112 | an allowed skill is kept, the four drafting skills become knowledge_recall, any other is dropped |
| `Crosswalk.SplStatusIs` | scripts/build_soc_capability_crosswalk.py:192-213 | the enrichment's own status decides if present, else that of the named template in the registry, else the matrix's, else unavailable |
| `Crosswalk.TemplateIs` | scripts/build_soc_capability_crosswalk.py:175-189 | the named template is the catalogue's default or, without one, the first text among the enrichment's templates |
| `Crosswalk.EnabledFlagIgnored` | scripts/build_soc_capability_crosswalk.py:206-210 | the registry's enabled flag never changes the derived template status |
| `Crosswalk.RuntimeActiveIff` | scripts/build_soc_capability_crosswalk.py:236-295 | a row is runtime_active iff it is unblocked, catalogued and enriched with tested, not blocked or pending, markdown-free enrichment, an allowed live skill and an active or SOP-only template |
| `Crosswalk.RuntimeStatusIs` | scripts/build_soc_capability_crosswalk.py:267-295 | each of the five runtime statuses by its own condition |
| `Crosswalk.RowFieldsAre` | scripts/build_soc_capability_crosswalk.py:321-372 | presence, provenance, tests and validation status of a row from the joined records |
| `Crosswalk.ReadyIff` | scripts/build_soc_capability_crosswalk.py:175-295 | what makes a row active, in terms of the fields of the catalogue record, the enrichment record and the template registry |
| `Crosswalk.QuestionRowsOrdered` | scripts/build_soc_capability_crosswalk.py:434 | the question rows stand in order of question |
| `Crosswalk.BuildQuestionRows` | scripts/build_soc_capability_crosswalk.py:375-435 | one joined row per matrix row, sorted by question |
| `Crosswalk.EntryActiveIff` | scripts/build_soc_capability_crosswalk.py:375-435 | the row of a runtime entry is runtime_active iff its question is not blocked and some use case is defensible for it in the raw sources and ready there |
| `Crosswalk.GenerateQuestionRows` | scripts/build_soc_capability_crosswalk.py:514-532 | from the files as read through indexes, matrix and crosswalk: one row per well-formed entry, and a question has an active row iff some entry asking it is ready in the sources |
| `Crosswalk.BuildUseCaseRows` | scripts/build_soc_capability_crosswalk.py:438-511 | the two loops with their seen set give exactly one row per use case of catalogue or enrichment, by id |
| `Crosswalk.ListRows` | scripts/build_soc_capability_crosswalk.py:438-511 | the same for any row builders that agree with one row function, whatever the two sources hold |
| `Crosswalk.SortRows` | scripts/build_soc_capability_crosswalk.py:438-511 | sorting the rows of distinct use cases by id lists the rows of the sorted ids |
| `Crosswalk.NoUseCaseDrift` | scripts/build_soc_capability_crosswalk.py:537-548 | the use-case drift warning cannot fire |
| `Crosswalk.UseCaseRowIs` | scripts/build_soc_capability_crosswalk.py:438-511 | every use-case row is the row of its own id, and that id is in catalogue or enrichment |
| `Crosswalk.LiveSkillsAllowed` | scripts/build_soc_capability_crosswalk.py:308-372 | every row of the crosswalk carries an allowed live skill or none |
| `ValidationSheets.BuildDemoSheet` | scripts/build_soc_validation_sheets.py:339-372 | one row per scenario, looked up in the index of use-case rows |
| `ValidationSheets.IndexedRow` | scripts/build_soc_validation_sheets.py:463-473 | the index finds the crosswalk row of a use case exactly if catalogue or enrichment has it |
| `ValidationSheets.DemoSafeIff` | scripts/build_soc_validation_sheets.py:355-372 | across crosswalk and sheets, over the fields of the records: a scenario is demo-safe as live iff its use case is catalogued and enriched, tested, not blocked or pending, markdown-free, has a live skill that is allowed or collapses to one, and a template that is active or SOP-only |
| `ValidationSheets.UseCaseActiveIff` | scripts/build_soc_capability_crosswalk.py:267-295 | the same characterisation for every use-case row |
| `ValidationSheets.ClassifyUseCases` | scripts/build_soc_validation_sheets.py:281-300 | the loop collects exactly the use cases meeting each case's condition |
| `ValidationSheets.CasesOfCrosswalk` | scripts/build_soc_validation_sheets.py:287-300 | on rows the crosswalk produces, cases A and B are always empty, D is the whole catalogue, E what is catalogued and enriched with provenance, F exactly what is enriched but not catalogued |
| `SentinelSet.SelectRows` | scripts/build_sentinel_set.py:131-159 | the greedy loops compute the selection, failing at the first category with too few matches |
| `SentinelSet.SelectSound` | scripts/build_sentinel_set.py:136-158 | on success each category holds exactly its count, each pick is the least unclaimed match of its category, and no reference is used twice |
| `SentinelSet.SelectionGuarantees` | scripts/build_sentinel_set.py:131-159 | the same for the registry as given, and every pick comes from it |
| `SentinelSet.SelectionOrderIndependent` | scripts/build_sentinel_set.py:133 | the selection does not depend on the registry's order |
| `SentinelSet.SelectAppended` | scripts/build_sentinel_set.py:137-140 | an entry at the end of the reference order leaves every step of a successful selection as it was |
| `SentinelSet.LateEntryChangesNothing` | scripts/build_sentinel_set.py:131-159 | adding an entry that sorts after all others does not change a successful selection |
| `SentinelSet.UnsharedSucceedsIff` | scripts/build_sentinel_set.py:136-158 | if no entry matches two categories, selection succeeds iff each category has enough matches of its own, and each then takes its first ones |
| `SentinelSet.UnsharedOrderHarmless` | scripts/build_sentinel_set.py:136-145 | so then success is the same for every order of the categories |
| `SentinelSet.CategoryOrderMatters` | scripts/build_sentinel_set.py:69-71 | with a shared scarce entry the greedy choice can fail although the same categories in the other order succeed |
| `ProbeBaseline.Compare` | scripts/audit_reference_probes.py:260-292 | accepts iff current ids are distinct and equal the baseline's, no row errored and all compared fields agree; each report line follows from its row and whether its id came before; reports exactly the missing ids |
| `ProbeBaseline.AgreeIff` | scripts/audit_reference_probes.py:219-257 | two rows agree iff they agree on each of the thirteen contract fields, a missing one counting as null |
| `ProbeBaseline.SelfComparison` | scripts/audit_reference_probes.py:260-292 | a run passes against its own rows iff its ids are distinct and none errored |
| `ProbeBaseline.RenderReport` | scripts/audit_reference_probes.py:173-213 | the lines joined are the report text of the specification |
| `ProbeBaseline.RenderRow` | scripts/audit_reference_probes.py:185-196 | a row of the table is its ten cells, each after a bar, in the order of the heading |
| `ProbeBaseline.CellIs` | scripts/audit_reference_probes.py:186-195 | null, false and an empty list are shown as nothing, a list as its items with commas between them |
| `ProbeBaseline.FindSkips` | scripts/audit_reference_probes.py:242 | the fence search finds nothing in full lines none of which ends in an opening fence, whatever follows them |
| `ProbeBaseline.OwnBlockIff` | scripts/audit_reference_probes.py:242 | the search stops at the report's own block iff no line before it ends in an opening fence and white space |
| `ProbeBaseline.BlockFound` | scripts/audit_reference_probes.py:242 | at the opening fence the search returns exactly the printed JSON |
| `ProbeBaseline.ParseRendered` | scripts/audit_reference_probes.py:236-249 | a rendered report, read back with newline translation, parses to its rows if no line read before the block ends in an opening fence; and exactly then the search stops at that block |
| `ProbeBaseline.OneLineCellsUnfenced` | scripts/audit_reference_probes.py:185-196 | cells without newlines or carriage returns leave no such line, even if they hold fences |
| `ProbeBaseline.UpdateThenCheck` | scripts/audit_reference_probes.py:326-365 | update, then reading the file back and checking: if no line read before the block ends in an opening fence, it passes iff ids are distinct and no probe failed; otherwise an earlier block is what is compared |
| `ProbeBaseline.CarriageReturnHijacks` | scripts/audit_reference_probes.py:344-350 | a report whose only row has an id with a fence between carriage returns is read back as the empty list |
| `ExecutionBaseline.Check` | scripts/freeze_execution_baseline.py:127-184 | exactly which drift is reported, and that none is iff everything is intact |
| `ExecutionBaseline.MirrorsAgreeIff` | scripts/freeze_execution_baseline.py:84-93 | a group has at most one distinct digest iff its present copies agree pairwise |
| `ExecutionBaseline.CheckCleanIff` | scripts/freeze_execution_baseline.py:127-184 | the check succeeds iff every declared member is recorded, every recorded digest is unchanged or its file unbuilt, and mirrors agree |
| `ExecutionBaseline.CaptureThenCheck` | scripts/freeze_execution_baseline.py:96-112 | a check right after a capture succeeds iff the mirrors agree: capture records differing mirrors, which then fail |
| `ExecutionBaseline.CleanChecksAgree` | scripts/freeze_execution_baseline.py:121-125 | two clean checks against one manifest saw the same digest of a declared member, unless it is an unbuilt output |
| `OrderStatistics.AtRankBetween` | scripts/eval_plan6_t4_serving_options.py:90-100 | an interpolated value lies between the two order statistics around its rank |
| `OrderStatistics.AtRankMonotone` | scripts/eval_plan6_t4_serving_options.py:90-100 | interpolation is monotone in the rank, across cell boundaries |
| `OrderStatistics.PctMonotone` | scripts/eval_plan6_t4_serving_options.py:90-100 | the percentile lies between minimum and maximum and never falls as the percentage rises |
| `OrderStatistics.PctExact` | scripts/eval_plan6_t4_serving_options.py:90-100 | at an exact position the percentile is the order statistic there, so the least value at 0 and the greatest at 100 |
| `OrderStatistics.PctLinear` | scripts/eval_plan6_t4_serving_options.py:90-100 | between two positions it runs straight from one order statistic to the next |
| `OrderStatistics.NoValues` | scripts/eval_plan6_t4_serving_options.py:90-93 | nothing is reported for an empty list |
| `OrderStatistics.NearestRankIs` | scripts/eval_p8_l3_live.py:362-369 | the value at the position nearest to p hundredths of the way, the even one of two |
| `OrderStatistics.NearestRankIsNeighbour` | scripts/eval_p8_l3_live.py:362-369 | the half-even nearest rank is one of the two order statistics between which interpolation happens |
| `OrderStatistics.P95Position` | scripts/eval_t4_coe_qualification.py:515-525 | the p95 position is in range and at or after the middle |
| `OrderStatistics.SummaryIs` | scripts/eval_t4_coe_qualification.py:515-525 | the count, the median cut towards zero, and the value at the position nearest to 95 % of the way |
| `OrderStatistics.MedianBelowP95` | scripts/eval_t4_coe_qualification.py:515-525 | the summary always has p50 <= p95 |
| `CvePagination.Paginate` | scripts/cve_build_snapshot.py:189-215 | against a fixed collection the result is the contiguous slice up to where paging stops, cut by the cap; it terminates although pages may be short |
| `CvePagination.CompleteIff` | scripts/cve_build_snapshot.py:205-214 | uncapped paging fetches all the rest iff the server sends no empty page at an index asked for before the end |
| `CvePagination.CappedIff` | scripts/cve_build_snapshot.py:205-215 | capped paging returns the first items of the rest up to the cap iff the server sends no empty page at an index asked for before the end and before the cap is reached |
| `CvePagination.CappedSlice` | scripts/cve_build_snapshot.py:205-215 | so a server that never sends an empty page early yields the slice up to the cap |
| `CvePagination.Stop` | scripts/cve_build_snapshot.py:210-213 | paging stops at the end of the collection, at an empty page, or with the cap reached |
| `CvePagination.NormalizeItems` | scripts/cve_build_snapshot.py:43-70 | the kept rows, in order of id: exactly those of the items with a non-blank id, marked if they have an exploit date; kept plus rejected equals fetched |
| `EnvStems.ResolveIdentity` | backend/app/spl/source_profile_resolver.py:92-104 | text without placeholders resolves to itself |
| `EnvStems.ResolveAt` | backend/app/spl/source_profile_resolver.py:92-104 | a placeholder gives way to its value, or stays if it has none, and the text goes on behind it |
| `EnvStems.RewriteAll` | scripts/abstract_templates_to_env_stems.py:61-80 | the in-place loop rewrites each template and lists each label once, in order, under its verdict |
| `EnvStems.AbstractTemplates` | scripts/abstract_templates_to_env_stems.py:52-80 | one run with the script's own abstraction and round-trip guard |
| `EnvStems.MeaningPreserved` | scripts/abstract_templates_to_env_stems.py:74-79 | every template resolves to the same SPL before and after a run |
| `EnvStems.RewriteIdempotent` | scripts/abstract_templates_to_env_stems.py:61-80 | rewriting a rewritten template changes nothing |
| `EnvStems.StemsAre` | scripts/abstract_templates_to_env_stems.py:28-34 | exactly the five sourcetypes have stems, and which |
| `EnvStems.NameClasses` | scripts/abstract_templates_to_env_stems.py:39-40 | the characters an index name and a sourcetype may consist of |
| `EnvStems.SimpleAbstraction` | scripts/abstract_templates_to_env_stems.py:37-49 | in a template that names an index and then one of the five sourcetypes, each once, both names give way to the stems of that sourcetype, in angle brackets, and nothing else changes |
| `EnvStems.SubEffect` | scripts/abstract_templates_to_env_stems.py:47-48 | a substitution leaves its replacement in the text if the literal occurs at a word boundary and the text unchanged otherwise |
| `EnvStems.MarkedIff` | scripts/abstract_templates_to_env_stems.py:37-49 | for any notion of word character: an abstraction contains a placeholder iff one of the two names found stands before a word boundary, and otherwise it is the unchanged text |
| `EnvStems.AbstractionIsMarked` | scripts/abstract_templates_to_env_stems.py:37-49 | for a template without other word characters than ASCII ones that is always so |
| `EnvStems.UnmarkedIsStuck` | scripts/abstract_templates_to_env_stems.py:70-80 | otherwise the template is listed as abstracted in every environment and does not change |
| `EnvStems.SecondRunVerdict` | scripts/abstract_templates_to_env_stems.py:61-80 | the verdict of a second run on every template: a rewritten one counts as already abstracted, a stuck one is abstracted once more, any other verdict is unchanged |
| `EnvStems.SecondRunAbstractsNone` | scripts/abstract_templates_to_env_stems.py:61-80 | such a template, once rewritten, counts as already abstracted, and every other verdict is unchanged |
| `EnvStems.SecondRunLabels` | scripts/abstract_templates_to_env_stems.py:80-84 | the templates a second run lists as abstracted are exactly the stuck ones, in order |
| `EnvStems.NoneStuckIff` | scripts/abstract_templates_to_env_stems.py:80-84 | a second run lists none iff no template is stuck |
| `EnvStems.AsciiNeverStuck` | scripts/abstract_templates_to_env_stems.py:61-80 | of templates without other word characters than ASCII ones none ever is |
| `EnvStems.AccentedIsStuck` | scripts/abstract_templates_to_env_stems.py:47-48 | a concrete template, names followed by an accented letter, that is stuck in every environment |
| `PyText.StripIs` | scripts/atlas_normalize.py:58-59 | stripping takes away exactly the white space at both ends |
| `PyText.WhiteSpace` | scripts/atlas_normalize.py:58-59 | which characters are white space |
| `PyText.LowerCases` | scripts/eval_catalogue_bind_experiment.py:49 | lower case replaces the twenty-six capitals and nothing else |
| `PyText.WordsOfSpaced` | scripts/eval_catalogue_bind_experiment.py:49 | splitting takes the first word, without the white space before it, and goes on behind it |
| `PyText.WordsOfSpace` | scripts/eval_catalogue_bind_experiment.py:49 | white space alone has no words |
| `PyText.ContainsIs` | scripts/eval_catalogue_bind_experiment.py:52 | a text contains another iff it is that text with something before and after it |
| `PyText.EndsWithIs` | scripts/llm_control_watcher.py:64 | a name matches the end of a pattern iff it is something followed by it |

## Left out

- ControlQueue: several watchers on one directory, deletions by third parties, a file system that reorders operations, and a failure to write the result or to unlink other than a crash at that point.
- ControlQueue: time stamps, the polling interval, and how a JSON value that is not text is turned into an action string.
- KnowledgeImport.BuildAtlasPayload: presentation fields of documents and entries.
- KnowledgeImport.BuildSkillPayload: presentation fields, and the guard that aborts on forbidden markers.
- KnowledgeImport: two importers running at the same time, and a stop in the middle of writing one file, which truncates it and makes both importers raise until it is restored.
- KnowledgeImport.RunsConverge: assumes that JSON parsing inverts printing; the JSON library itself is not modelled.
- AtlasMatrix: scores are integers, and an absent id or tactic is read as blank; layer files without a technique list are rejected before the modelled code.
- AtlasMatrix.Analyze: the counts attached to same-tactic keys are not part of the report, because colliding keys overwrite each other; only the set of keys is.
- AtlasNodes.SecondPass: the list of dangling references is kept as its length, and its cut to 50 is not modelled.
- AtlasNodes: the parser of Python list literals is abstract (a cell is malformed or a list of references), and a digit of an id is an ASCII digit.
- RoutingGate: quota tables, rates, capability downgrades and the texts of failures; evaluating a row calls the router, which is not part of this model.
- CatalogueBind: rounding of floating-point scores; the cosine similarity and the logarithm are parameters; the agreement counts on the catalogue questions.
- BraceScanner.LastJsonObject: the JSON parser is a parameter that classifies a segment.
- CoverageMatrix.BuildRows: columns that neither the resolver nor the crosswalk's derived status reads, and warnings raised while loading files.
- Crosswalk.BuildQuestionRows: MITRE and reference columns and the planning skill.
- Crosswalk.BuildUseCaseRows: MITRE and reference columns and the planning skill.
- Crosswalk: the fixed count of 105 questions, and use-case ids that are not text.
- ValidationSheets: the sheets other than the demo scenarios and the case examples; case C and the cut to six sorted examples.
- SentinelSet: `select_powergrid_rows`, which takes one least match per category and nothing interacts with it.
- ProbeBaseline.ParseRendered: assumes that the printed JSON starts with a visible character, holds no raw carriage return and no line starting with a fence, as `json.dumps` output with an indent does.
- ExecutionBaseline: an unreadable manifest file, and the list of protected artifacts, which is a parameter.
- OrderStatistics: floating-point rounding.
- CvePagination.CappedSlice: a corollary for servers that never send an empty page early; `CappedIff` states the exact condition.
- CvePagination.NormalizeItems: severity, products and dates of the kept rows.
- CvePagination: the pause between requests, a collection that changes while it is paged, change records and the manifest.
- EnvStems.AbstractionIsMarked: a corollary for ASCII templates; `MarkedIff` states the exact condition for every template.
- EnvStems.SecondRunAbstractsNone: a corollary for ASCII templates; `SecondRunVerdict` states the verdict for every template.
- EnvStems.AsciiNeverStuck: a corollary for ASCII templates; `NoneStuckIff` and `AccentedIsStuck` treat the others.
- PyText: white space and case conversion are ASCII (white space with the four separators from 1C to 1F).
- Everything that calls the backend's routing, planning and chat code, HTTP, subprocesses and markdown layout.
