# Weavatrix Quality: a verified model

Weavatrix Quality turns repository evidence into test selections, mutants of changed lines, replayable
programs and change verdicts. This project models the deterministic core of that pipeline in Dafny 4.11 and
proves what each part is for. `dafny verify dfyconfig.toml` checks everything.

Parts, in the order of the pipeline:

- **Selection** (`Selection*`): a greedy weighted set cover over candidates merged from five sources. The chosen
  tests cost at most H(K) times any other cover, flake penalties included, and the plan does not depend on order or source.
- **Reach** (`Walks`, `Reach`, `BindingReach`, `GraphLaws`, `PathLaws`): a bounded breadth-first walk from a test binding.
  The truncation flag has its exact condition; unset it means the answer is exact, and below the node ceiling the answer
  is exact up to four edges in any case.
- **Changed-line mutation** (`Lexing`, `Mutation*`, `OperatorFlips`, `ChangePlanning`, `PolicyLaws`): a lexer mask proved
  equal to a declarative lexing, a planner of code-only edits, a judging loop over a mutated and restored workspace, and
  the document validator that has to accept what the loop produces.
- **Program life cycle** (`Programs`, `ProgramLaws`, `Promotion`, `Replay`, `PromotionSafety`, `Heal`, `HealLaws`): a
  recorded trace is promoted to a program, replayed and healed; promotion and healing are simulations.
- **Evidence codecs** (`Lcov`, `LcovParse`, `LineRanges`, `RangePushing`, `GoCover`, `GoJson`, `GoJsonLaws`, `Chunked`,
  `Decimal`).
- **Bounded process collector** (`Process`): two readers, a child and a collecting loop as interleaved steps.
- **AI cost firewall** (`Firewall`, `LocalModel`): saturating usage counters and a reservation made before the call.
- **Lineage and clustering** (`Flows`, `FlowLaws`, `FlowPreference`, `FlowEvidence`, `Clusters`, `ClusterLaws`,
  `ClusterOrder`, `ClusterFields`).
- **Protection policy** (`ProtectionDeltas`, `ProtectionGate`, `ProtectionLaws`, `ChangeVerdicts`, `VerdictFields`,
  `VerdictLaws`): from two snapshots to the composed verdict.

The modules whose names end in `Laws`, `Fields`, `Evidence` or `Sites` say over plain fields and texts what the shared
functions of the specifications mean, so that no law rests on a name alone; `TextLaws` does so for searching, trimming and
letter case.

Loops of the source are methods proved against a specification function or predicate; the laws are lemmas about that
specification. The recorder and the firewall, whose methods update their fields, are classes.

## Where the code does less than one would expect

Each of these is proved, by its exact condition or a concrete input, most by both.

- A mandatory test can be picked after an optional one: `SelectionPriority.MandatoryLosesExactlyWhen` and
  `SelectionPriority.OptionalComesFirstExactlyWhen` say when, `SelectionPriority.OptionalCanComeFirst` shows it. The number
  of optional obligations counts as much as the cost: a test for 1001 optional ones comes before a test for one mandatory
  one at equal cost. The comment at crates/wvq-intelligence/src/selection.rs:142-143 says otherwise; only the final plan
  never omits the mandatory one. `SelectionPriority.MandatoryPicksComeFirst` says what to bound.
- Promotion drops interactions that change nothing visible, and hidden state can depend on them:
  `PromotionSafety.PromotionIsSafeExactlyWhen`, `Replay.HiddenStateBreaksPromotion`.
- A produced mutation document is refused by its own validator when some mutant is owned but the deadline passes before
  the first decision: `MutationRun.ProducedDocumentIsValidExactlyWhen`, `MutationWitnesses.LateRunIsRefused`.
- One kind of mutant leaves its source unchanged, a slice bound that is already 2^64-1:
  `MutationLaws.MutantIsIdleExactlyWhen`, `MutationWitnesses.FullSliceMutantIsIdle`.
- Flipped operators are not always flipped back by planning again: `OperatorFlips.OperatorFlipIsUndoneExactlyWhen`,
  `OperatorFlips.RustFlipIsUndoneExactlyWhen`, `OperatorFlips.FlipAfterABarStays`. Flipped words always are.
- Chunk extensions that are not UTF-8 are refused: `Chunked.RoundTrip`, `Chunked.ObscureExtensionIsRefused`.
- A failed poll of the child returns without killing it: `Process.FailedRunKillsExactlyWhen`,
  `Process.PollFailureLeavesChildRunning`.
- An accepted reservation does not cover the charge when input tokens are dearer than output tokens:
  `LocalModel.ChargeNeverRefusedExactlyWhen`, `LocalModel.DearInputCanBeRefused`.
- A full usage counter forgets granted requests when its ceiling is the width of the counter:
  `Firewall.RunConservesUsage`, `Firewall.FullCounterForgets`.
- Preference between matching reasons is per base flow: `FlowPreference.SurfaceIsMatchedExactlyWhen`,
  `FlowPreference.SurfaceIsKeptExactlyWhen`, `FlowLaws.EarlierFlowTakesTheSurface`. A list matched against
  itself is unchanged only for distinct ids: `FlowLaws.SelfMatchIsUnchangedExactlyWhen`. The merged state cannot occur
  when head ids are distinct: `FlowLaws.NothingIsMerged`.
- A relocation target hides its own loss: `ProtectionDeltas.LocalLossIsReportedExactlyWhen`,
  `ProtectionDeltas.RelocationTargetHidesItsLoss`.
- A blocking protection axis can still give a pass, when its only errors are of check 6 and no critical branch is
  lost: `VerdictLaws.GateBlockReachesTheVerdictExactlyWhen`, `VerdictLaws.HighRiskDegradationPasses`.
- Adding a missing proof can turn a block into missing evidence: `VerdictLaws.MissingProofOutranksAReturnedRegression`.

## Model

| member | source | states |
|---|---|---|
| Selection.SelectMinimalPlan | crates/wvq-intelligence/src/selection.rs:146-205 | the loops return the greedy plan over the candidates sorted by id, whose laws are the rows below |
| Selection.BestIndex | crates/wvq-intelligence/src/selection.rs:207-261 | the scan returns the reference choice of a candidate, or none |
| Selection.TakeGreedily | crates/wvq-intelligence/src/selection.rs:162-194 | the in-place removal loop picks as the greedy recursion does, and leaves exactly the obligations no pick covers |
| Selection.Gains | crates/wvq-intelligence/src/selection.rs:213-228 | the two saturating counters are the sizes of the mandatory and optional gain |
| SelectionOrder.BeatsIsExact | crates/wvq-intelligence/src/selection.rs:263-273 | without saturation, cross-multiplication compares the exact gain per max(1, cost + flake penalty), then that cost, then the id |
| SelectionOrder.BeatsExactlyWhen | crates/wvq-intelligence/src/selection.rs:230-277 | in every case, saturated or not, the comparison is that of the clamped cross products of 1000 per mandatory and 1 per optional obligation with max(1, cost + flake penalty), then of that cost, then of the id |
| SelectionOrder.BeatsIsStrictTotalOrder | crates/wvq-intelligence/src/selection.rs:263-273 | with distinct ids and no saturation the comparison is irreflexive, total and transitive |
| SelectionOrder.ScanFindsGain | crates/wvq-intelligence/src/selection.rs:207-261 | a candidate is found if and only if some candidate gains something |
| SelectionOrder.ScanFindsBest | crates/wvq-intelligence/src/selection.rs:207-261 | the candidate found is beaten by no other gaining candidate |
| SelectionOrder.GreedyPartitions | crates/wvq-intelligence/src/selection.rs:162-194 | picks are non-empty, pairwise disjoint parts of candidates at cost plus flake penalty (clamped), and together cover exactly what any candidate can |
| SelectionOrder.PlanCoversEverythingCoverable | crates/wvq-intelligence/src/selection.rs:146-205 | the covers of the plan partition the coverable obligations, and the uncovered list is exactly the mandatory rest |
| SelectionOrder.ObligationIsCoveredExactlyWhen | crates/wvq-intelligence/src/selection.rs:146-205 | an obligation is covered by the plan exactly when it is needed and some candidate covers it, and is reported uncovered exactly when it is high risk and none does |
| SelectionOrder.PlanIgnoresOrder | crates/wvq-intelligence/src/selection.rs:146-163 | with distinct ids, permuting the candidates leaves the plan identical |
| SelectionCost.StepCharge | crates/wvq-intelligence/src/selection.rs:207-273 | one pick charges any rival at most its cost times a difference of harmonic numbers |
| SelectionCost.ChargeBound | crates/wvq-intelligence/src/selection.rs:162-261 | over the whole run a candidate is charged at most its cost times H of its initial score |
| SelectionCost.CoverPaysForPicks | crates/wvq-intelligence/src/selection.rs:162-194 | any candidates covering what the picks cover are charged at least the cost of the picks |
| SelectionCost.PlanWithinHarmonicFactor | crates/wvq-intelligence/src/selection.rs:146-277 | without saturation the plan costs at most H(K) times any candidate subset covering the same coverable obligations, each test at max(1, cost + flake penalty), K the largest initial score |
| SelectionSources.Absorb | crates/wvq-intelligence/src/selection.rs:101-122 | merging one more candidate keeps, per id, the union of covers, the least cost and the greatest flake penalty |
| SelectionSources.FlowAwareCandidates | crates/wvq-intelligence/src/selection.rs:93-126 | the five sources merge into one summary per id, in ascending id order |
| SelectionSources.SelectFlowAwarePlan | crates/wvq-intelligence/src/selection.rs:130-138 | the plan is the minimal plan over the merged sources |
| SelectionSources.FlowAwarePlanIgnoresSourceAndOrder | crates/wvq-intelligence/src/selection.rs:93-138 | moving candidates between sources or reordering them leaves the plan identical, with no condition on ids |
| SelectionSources.FlowAwarePlanCoversAllSources | crates/wvq-intelligence/src/selection.rs:93-138 | the plan covers exactly what some candidate of the five sources covers; uncovered mandatory obligations are exactly the others |
| SelectionPriority.MandatoryLosesExactlyWhen | crates/wvq-intelligence/src/selection.rs:230-273 | a test that gains nothing mandatory is preferred to any test that does exactly when its optional gain per cost exceeds the weighted gain per cost of the other, or ties and is cheaper, or ties and has the smaller id |
| SelectionPriority.OneAgainstManyExactlyWhen | crates/wvq-intelligence/src/selection.rs:230-273 | n optional obligations against one mandatory one: preferred exactly when n times the cost of the mandatory test exceeds 1000 times the other cost, with the tie-break; from n = 1001 on already at equal cost |
| SelectionPriority.OptionalComesFirstExactlyWhen | crates/wvq-intelligence/src/selection.rs:140-194 | a plan starts with a pick of optional obligations exactly when some such candidate outprices every candidate with a mandatory gain |
| SelectionPriority.MandatoryPicksComeFirst | crates/wvq-intelligence/src/selection.rs:140-194 | when, for every mandatory test and every other test, cost(mandatory) times the optional obligations of the other stays below 1000 times cost(other), no pick without a mandatory obligation comes before one with |
| SelectionPriority.OptionalCanComeFirst | crates/wvq-intelligence/src/selection.rs:140-145 | two concrete candidates for which the optional one is picked first, although the plan omits neither |
| SelectionPriority.SingleObligationTakesTheCheapest | crates/wvq-intelligence/src/selection.rs:207-277 | for a single obligation the plan is one test, of all that cover it the one with the least max(1, cost + flake penalty), a tie going to the smaller id, listed at cost plus flake penalty |
| Text.BeforeExactlyWhen | crates/wvq-intelligence/src/selection.rs:263-273 | ids are in dictionary order: the first different character decides, and a proper prefix comes first |
| BindingReach.ProductionNodesForBinding | crates/wvq-intelligence/src/surface_reach.rs:31-122 | a non-test binding yields its own nodes; a test binding yields at most 64 sound nodes, all nodes within 4 edges when under 64, and exactly min(nodes, 32) shortest evidence paths of at most 4 edges; the flag is set exactly when there are more than 32 nodes or some node at distance 4 has a successor |
| BindingReach.UntruncatedIsExact | crates/wvq-intelligence/src/surface_reach.rs:62-122 | for unique node ids, no truncation means the nodes are exactly those living in production files that are reachable along graph edges, through nodes of no test file, from the nodes of the binding's file |
| BindingReach.WithinCeiling | crates/wvq-intelligence/src/surface_reach.rs:62-122 | an exhausted search has found exactly the production nodes within four edges |
| BindingReach.AllReachable | crates/wvq-intelligence/src/surface_reach.rs:62-122 | an exhausted, untruncated search has found exactly the reachable production nodes |
| BindingReach.ReachFromTest | crates/wvq-intelligence/src/surface_reach.rs:62-122 | the sorted answer of the walk: sound and complete as above, one evidence path per node up to 32, and the truncation flag exactly when evidence or depth ran out |
| BindingReach.ReadNodes | crates/wvq-intelligence/src/surface_reach.rs:36-49 | one pass collects the file of each node and the nodes of the binding's file |
| BindingReach.Outgoing | crates/wvq-intelligence/src/surface_reach.rs:124-136 | one pass collects the targets of each node |
| BindingReach.TargetsAreEdges | crates/wvq-intelligence/src/surface_reach.rs:124-136 | the target map holds a pair exactly when some edge has those preferred ends |
| BindingReach.OnPathLives | crates/wvq-intelligence/src/surface_reach.rs:38-49 | the start nodes are exactly the named nodes of the binding's file |
| BindingReach.StartsAreTests | crates/wvq-intelligence/src/surface_reach.rs:37-61 | start nodes of a test binding are test nodes, so none is reported as production |
| BindingReach.SitesAre | crates/wvq-intelligence/src/surface_reach.rs:36-61 | for unique node ids, a node counts as a test or as production code exactly when its file is one |
| Reach.FlagIsExact | crates/wvq-intelligence/src/surface_reach.rs:68-116 | at the end of the walk the flag is set exactly when more than 32 nodes were found or some node at distance exactly 4 has a successor |
| GraphLaws.EndIsPreferred | crates/wvq-intelligence/src/surface_reach.rs:124-136 | an edge end is the first of its two fields that is present and not empty |
| GraphLaws.NodeFileExactlyWhen | crates/wvq-intelligence/src/surface_reach.rs:138-153 | the file of a node is its span, or without a span what its id says after the scheme and before the first hash mark, slashes turned, unless that is empty |
| PathLaws.TestPathExactlyWhen | crates/wvq-intelligence/src/surface_reach.rs:165-176 | a path is a test exactly when it lies in a test directory or its file name has a test mark, in any case |
| PathLaws.ProductionExactlyWhen | crates/wvq-intelligence/src/surface_reach.rs:155-163 | a path is production code exactly when it is no test and ends in one of eight extensions, in any case |
| Reach.BreadthFirst | crates/wvq-intelligence/src/surface_reach.rs:68-116 | the queue loop keeps ceilings, evidence and the reason of the flag sound, and exhausts the graph unless it was stopped at 64 nodes |
| Reach.Expand | crates/wvq-intelligence/src/surface_reach.rs:77-115 | expanding one visit keeps the invariant of the walk, or stops at the node ceiling with the truncation flag set |
| Reach.Discover | crates/wvq-intelligence/src/surface_reach.rs:85-114 | one discovered neighbour keeps the invariant: shortest trails, distinct evidence ends, flag set when evidence or depth runs out |
| Reach.Advance | crates/wvq-intelligence/src/surface_reach.rs:68-116 | once only the next level is queued, every node of that level has been seen |
| Reach.SeesWithin | crates/wvq-intelligence/src/surface_reach.rs:68-116 | an emptied queue means every node within four edges was seen |
| Reach.SeesEverything | crates/wvq-intelligence/src/surface_reach.rs:68-116 | an emptied queue without truncation means every reachable node was seen, at any distance |
| Lexing.CodeMask | crates/wvq-proof/src/mutation.rs:984-1046 | the state machine over bytes computes the reference mask, and the mask of every lexing of the text |
| Lexing.TokensLex | crates/wvq-proof/src/mutation.rs:984-1046 | every text has a lexing into code, comments and quoted strings, and the reference mask marks its code |
| Lexing.MaskIsTheLexing | crates/wvq-proof/src/mutation.rs:984-1046 | that lexing is unique: any declarative lexing has the same tokens and mask |
| Lexing.FirstStarts | crates/wvq-proof/src/mutation.rs:990-1044 | the first token found satisfies the grammar: comments end where they must, a string at its first delimiter after an even backslash run |
| Lexing.StartIsUnique | crates/wvq-proof/src/mutation.rs:990-1044 | no text starts with two different tokens |
| Lexing.CodeSuffix | crates/wvq-proof/src/mutation.rs:984-1046 | at a code byte the mask splits: lexing restarts there |
| Lexing.MaskSwap | crates/wvq-proof/src/mutation.rs:984-1046 | replacing what follows a code position leaves the mask before it unchanged |
| MutationRules.RuleEdits | crates/wvq-proof/src/mutation.rs:615-952 | the scanning loop of a planner finds the sites of its rule in order, without overlap |
| MutationRules.SitesAreSafe | crates/wvq-proof/src/mutation.rs:615-952 | every site of every rule lies in code and inside the text |
| MutationRules.WordSites | crates/wvq-proof/src/mutation.rs:719-739 | word replacement finds exactly the whole-word occurrences in code, none skipped |
| MutationSites.RuleExactlyWhen | crates/wvq-proof/src/mutation.rs:615-952 | a rule finds an edit exactly when what it looks for stands in code there, none skipped and nothing else |
| MutationSites.TextsAreReplacedExactlyWhen | crates/wvq-proof/src/mutation.rs:685-739 | a replacing operator finds exactly the code occurrences of the texts of its table, with their replacements |
| MutationSites.BoundariesAreFlippedExactlyWhen | crates/wvq-proof/src/mutation.rs:649-683 | a boundary flip takes or gives the equals sign of exactly the comparisons that stand in code |
| MutationSites.KeywordsAreEditedExactlyWhen | crates/wvq-proof/src/mutation.rs:741-952 | branches are switched off, throws voided, slice bounds raised and returned literals changed exactly where they stand |
| MutationSites.CallsAreEditedExactlyWhen | crates/wvq-proof/src/mutation.rs:778-840 | the named checks are negated and the named callbacks left out exactly where they are called |
| MutationSites.CatalogueHasRules | crates/wvq-proof/src/mutation.rs:436-613 | an operator is in the catalogue of an ecosystem exactly when it has rules there |
| MutationSites.CharactersAre | crates/wvq-proof/src/mutation.rs:965-975 | a word ends at anything but ASCII letters, digits, underscores and dollars; blanks are the five ASCII ones |
| MutationPlan.PlanSourceMutants | crates/wvq-proof/src/mutation.rs:269-376 | each error exactly on its condition; otherwise the first min(max, 256) of the sorted duplicate-free list of all edits of requested operators on changed lines |
| MutationPlan.PlanEdits | crates/wvq-proof/src/mutation.rs:343-376 | collected, filtered, sorted and deduplicated edits are exactly the planned edits, each once |
| MutationPlan.AllEdits | crates/wvq-proof/src/mutation.rs:343-349 | the edits of the requested operators are exactly those some rule of theirs finds |
| MutationPlan.PlanIsUnique | crates/wvq-proof/src/mutation.rs:350-376 | a text, its changed lines and the requested operators determine the plan |
| PolicyLaws.UnsafePathExactlyWhen | crates/wvq-proof/src/mutation.rs:269-300 | a path is refused exactly when it is blank, rooted, has a backslash or colon, or an empty, single-dot or double-dot part between slashes |
| PolicyLaws.RequestedExactlyWhen | crates/wvq-proof/src/mutation.rs:301-342 | requested are exactly the operators some given word spells, in any case and with white space around; none given requests the whole catalogue |
| MutationLaws.PlannedMutantIsSafe | crates/wvq-proof/src/mutation.rs:174-186 | a planned mutant applies, changes only its range, replaces only code bytes or inserts next to one; its line is one more than the newlines before it and is a changed line, its column counts from the start of that line, and its other fields are those of the edit |
| MutationLaws.MutantPosition | crates/wvq-proof/src/mutation.rs:954-963 | the line of a mutant is one more than the number of newlines before it, and its column counts from the last of them or the start, both clamped to 32 bits |
| MutationLaws.PlanIsOrdered | crates/wvq-proof/src/mutation.rs:352-363 | a plan is in order of start, end, operator and replacement, without repetition |
| MutationLaws.MutantRefusesStaleText | crates/wvq-proof/src/mutation.rs:174-186 | an applied mutant is undone exactly by its reverse, and applies to its own output exactly when its replacement and what follows begin with the original |
| MutationLaws.PlanIdsAreDistinct | crates/wvq-proof/src/mutation.rs:386-419 | mutants of one plan have different ids |
| MutationLaws.MutantIsIdleExactlyWhen | crates/wvq-proof/src/mutation.rs:882-913 | a planned mutant leaves its source unchanged exactly when it raises a slice bound that is already the largest 64-bit number |
| MutationWitnesses.FullSliceMutantIsIdle | crates/wvq-proof/src/mutation.rs:882-913 | the planned mutant of `a.slice(0,18446744073709551615)` leaves that text as it was |
| MutationLaws.FlipsAreFound | crates/wvq-proof/src/mutation.rs:719-739 | the flip operators find exactly the whole-word occurrences of true and false in code |
| MutationLaws.InverseIsPlanned | crates/wvq-proof/src/mutation.rs:719-739 | after a word flip, planning the mutated text again for any operators that include it plans the inverse edit at the same offset |
| MutationLaws.FlipIsUndoneByReplanning | crates/wvq-proof/src/mutation.rs:269-376 | the inverse stands at the same position of the new plan, earlier edits are the same, and applying it restores the source exactly |
| OperatorFlips.OperatorFlipIsUndoneExactlyWhen | crates/wvq-proof/src/mutation.rs:685-717 | after a logical or equality flip the inverse is planned again exactly when the run of the new operator character before it is a whole number of operators, or the new operator is `!==` |
| OperatorFlips.RustFlipIsUndoneExactlyWhen | crates/wvq-proof/src/mutation.rs:615-647 | after a Rust equality flip the inverse is planned again exactly when the new operator is `!=`, or no `=`, no code `!` stands before it and no arrow head after it |
| OperatorFlips.FlipAfterABarStays | crates/wvq-proof/src/mutation.rs:685-717 | a concrete text, the bar before two ampersands, whose flip is planned and whose inverse is not |
| MutationPolicies.FromContract | crates/wvq-command-bus/src/source_mutation.rs:56-100 | refuses exactly blank operators; otherwise per-obligation and total selections are exactly what the hinted scenarios ask for, known operators only |
| MutationPolicies.Operators | crates/wvq-command-bus/src/source_mutation.rs:71-82 | trimmed lower-case tokens of a hint, unknown ones dropped, refused exactly when one is blank |
| PolicyLaws.NamesExactlyWhen | crates/wvq-command-bus/src/source_mutation.rs:71-82 | a scenario names an operator exactly when some catalogue has it and one of its hints spells it |
| PolicyLaws.JudgesExactlyWhen | crates/wvq-command-bus/src/source_mutation.rs:115-124 | under the policy of a contract an obligation may judge an operator exactly when a scenario of it hints everything and the catalogue has the operator, or hints the operator |
| MutationDocuments.Validate | crates/wvq-command-bus/src/source_mutation.rs:263-350 | accepts exactly the valid documents: sorted lists within policy, valid distinct decisions, counters and state that agree with them |
| MutationDocuments.CheckRecords | crates/wvq-command-bus/src/source_mutation.rs:279-324 | the record loop accepts exactly when every record is valid and ids are distinct, and counts the three verdicts |
| MutationDocuments.CheckRecord | crates/wvq-command-bus/src/source_mutation.rs:287-320 | one record is accepted exactly when its operator, obligation, path, position and status are valid |
| MutationDocuments.SummariesAddUp | crates/wvq-command-bus/src/source_mutation.rs:209-261 | for a valid document the per-obligation summaries add up to its killed, survived and invalid counters |
| PolicyLaws.SummaryExactlyWhen | crates/wvq-command-bus/src/source_mutation.rs:209-261 | a summary exists exactly for judging obligations, or for all when nobody judges; it counts the results of its obligation by status and is unmeasured exactly without any |
| PolicyLaws.CountIsSize | crates/wvq-command-bus/src/source_mutation.rs:316-330 | the counters are the numbers of results with each status |
| PolicyLaws.StateExactlyWhen | crates/wvq-command-bus/src/source_mutation.rs:331-350 | the state that fits a document is decided by its results, its judging obligations and whether anything was planned; some documents fit none |
| PolicyLaws.SafeRelativeExactlyWhen | crates/wvq-command-bus/src/source_mutation.rs:1043-1053 | a path of a record is safe exactly when it is not rooted, does not start at a dot and has no double-dot part |
| MutationRun.ExecuteSourceMutation | crates/wvq-command-bus/src/source_mutation.rs:504-619 | the workspace is restored; every result is the judge's verdict on the overlay with that one mutant spliced in, for a planned mutant and an owner of it; results are the prefix of the full decision list that the clock readings allow, at most 128, and empty exactly when no mutant is owned or the clock is late too early; counters and state report them |
| MutationRun.JudgeMutants | crates/wvq-command-bus/src/source_mutation.rs:525-574 | every decision is the judge's verdict on the overlay with one planned mutant spliced in, for one of its owners, with the mutant's position; the workspace equals the overlay at every loop head and at the end, even when stopped; the number of decisions is exactly what the readings before the first late one allow, at most 128; an error only when an owned mutant no longer applies |
| MutationRun.RecordsAreDecisions | crates/wvq-command-bus/src/source_mutation.rs:547-568 | each record carries the id, operator and position of its mutant, its owner, and the judge's verdict on the source with the mutant's range replaced |
| MutationRun.JudgeOwners | crates/wvq-command-bus/src/source_mutation.rs:550-568 | owners are judged in order on the mutated workspace, one clock reading each, stopping exactly at the decision ceiling or the first late reading |
| MutationRun.Applicable | crates/wvq-command-bus/src/source_mutation.rs:504-519 | the sorted obligations that own some planned mutant |
| MutationRun.OwnersAreCandidates | crates/wvq-proof/src/code_surface.rs:374-387 | the owners of a path are exactly the candidate obligations whose surface claims it |
| MutationRun.OwnersAreDistinct | crates/wvq-proof/src/code_surface.rs:374-387 | no obligation owns a path twice |
| GraphLaws.ClaimsExactlyWhen | crates/wvq-proof/src/code_surface.rs:53-60 | a surface claims a path exactly when one of its node ids is that path or names it after its scheme, slashes turned |
| MutationRun.DecisionsAreDistinct | crates/wvq-command-bus/src/source_mutation.rs:529-574 | decisions over distinct mutants have distinct ids |
| MutationRun.NothingIsJudgedExactlyWhen | crates/wvq-command-bus/src/source_mutation.rs:525-574 | a run judges nothing exactly when no planned mutant has an owner, or the clock is late by the reading before the first owner of the first owned mutant |
| MutationRun.ProducedDocumentIsValidExactlyWhen | crates/wvq-command-bus/src/source_mutation.rs:263-350 | the validator accepts the document of a run exactly when no planned mutant has an owner, or the clock is on time up to the reading before the first owner of the first owned mutant |
| MutationWitnesses.LateRunIsRefused | crates/wvq-command-bus/src/source_mutation.rs:331-350 | the plan of a one-word Go file is exactly one mutant; with a late first or second clock reading the run builds a document of it that its own validator refuses |
| ChangePlanning.PlanMutants | crates/wvq-command-bus/src/source_mutation.rs:422-474 | the mutants of the files in order, each file planned with what is left of the 32 and with its operators, tests and unknown ecosystems left alone; fails only when some file cannot be planned; ids distinct when no file is listed twice |
| ChangePlanning.PlanOneFile | crates/wvq-command-bus/src/source_mutation.rs:458-473 | fails exactly without budget, on an unsafe path, an oversized source or an unknown operator; otherwise the mutants are the first part of the sorted list of planned edits, distinct, and apply to the file |
| ChangePlanning.OperatorsFor | crates/wvq-command-bus/src/source_mutation.rs:102-113 | the operators of a policy for an ecosystem: all, the requested ones it has, or none |
| PolicyLaws.EcosystemExactlyWhen | crates/wvq-command-bus/src/source_mutation.rs:820-834 | the ecosystem of a file is told by what stands after the last dot of its name, in any case |
| PolicyLaws.LooksLikeTestExactlyWhen | crates/wvq-command-bus/src/source_mutation.rs:836-846 | a changed file is left alone exactly when its path has one of two test endings or six test parts, in any case |
| ChangePlanning.PlannedChangeRuns | crates/wvq-command-bus/src/source_mutation.rs:422-619 | for distinct mutants planned from the sources, the document of the run on them is valid exactly when none is owned or the clock is on time up to the first decision |
| ChangePlanning.ExecuteOnChange | crates/wvq-command-bus/src/source_mutation.rs:419-620 | the whole run fails only when some file cannot be planned, judges exactly the mutants planned file by file, restores the sources, and for disjoint file lists its document passes the validator exactly on that condition |
| Programs.Validate | crates/wvq-runtime/src/program.rs:608-678 | accepts exactly the valid programs: version, declared and asserted obligations, registered faults, operations and fixtures, no asserting precondition |
| Programs.CheckSteps | crates/wvq-runtime/src/program.rs:637-667 | the step loop accepts exactly when every action is valid and registered, and collects the asserted obligations |
| Programs.CheckRegistry | crates/wvq-runtime/src/program.rs:622-627 | accepts exactly valid faults and operations |
| ProgramLaws.TargetIsValidExactlyWhen | crates/wvq-runtime/src/program.rs:133-167 | a target is valid exactly when it and every target around it has a printing text and no text that looks like an XPath |
| ProgramLaws.ActionIsValidExactlyWhen | crates/wvq-runtime/src/program.rs:387-436 | an action is valid exactly when every target it points at is, no text it needs is empty, and an upload names a plain fixture |
| ProgramLaws.RegisteredExactlyWhen | crates/wvq-runtime/src/program.rs:513-549 | a step is registered exactly when the obligation, fault, operation or data it names is declared, and an uploaded file is a small one with a plain name |
| ProgramLaws.FilenameExactlyWhen | crates/wvq-runtime/src/program.rs:498-511 | a file name is accepted exactly when it is not empty, has no slash and is neither dot nor double dot |
| ProgramLaws.FaultIsValidExactlyWhen | crates/wvq-runtime/src/program.rs:198-229 | a fault is accepted exactly with a printing address, a three-digit status up to 599 and a delay of at most half a minute |
| Promotion.Recorder.constructor | crates/wvq-runtime/src/behavior.rs:238-251 | an empty recording of a session |
| Promotion.Recorder.Start | crates/wvq-runtime/src/behavior.rs:254-257 | sets the initial and current state and nothing else |
| Promotion.Recorder.Step | crates/wvq-runtime/src/behavior.rs:264-274 | appends exactly when started and the action is valid, and otherwise changes nothing |
| Promotion.Recorder.LinkObligation | crates/wvq-runtime/src/behavior.rs:277-279 | adds one obligation |
| Promotion.Recorder.LinkFixture | crates/wvq-runtime/src/behavior.rs:292-294 | binds one fixture name |
| Promotion.Recorder.Finish | crates/wvq-runtime/src/behavior.rs:301-318 | fails exactly when not started; the trace holds everything recorded and only valid actions |
| Promotion.Promote | crates/wvq-runtime/src/behavior.rs:456-518 | succeeds exactly for promotable traces, and then yields a valid program |
| Promotion.DigestsAgreeExactlyWhen | crates/wvq-runtime/src/behavior.rs:76-105 | two states have the same digest exactly when route, feature flags and the seven optional texts are equal, an empty text being none |
| Promotion.PromotedStepsAre | crates/wvq-runtime/src/behavior.rs:465-503 | the promoted steps are, in order and exactly, the first assertion of each obligation and the interactions that changed the state, followed by the missing assertions in declared order |
| Promotion.KeepSteps | crates/wvq-runtime/src/behavior.rs:464-489 | the event loop keeps first assertions and state-changing interactions in order, and fails exactly on an undeclared assertion |
| Promotion.AssertsEachObligationOnce | crates/wvq-runtime/src/behavior.rs:462-503 | a promoted program asserts each declared obligation exactly once and no other |
| Promotion.PromotedInteractions | crates/wvq-runtime/src/behavior.rs:465-489 | its interactions are exactly those before and after which some of the nine state fields differ, an empty optional text counting as none |
| Promotion.PromotedIsValidExactlyWhen | crates/wvq-runtime/src/behavior.rs:490-518 | the program passes validation exactly when every measured interaction is valid and registered and there is an obligation |
| Replay.ReplayTrace | crates/wvq-runtime/src/behavior.rs:554-580 | succeeds exactly when both seeds given agree, both fixtures given agree and the host shows every recorded digest; returns the states visited |
| Replay.FollowsExactlyWhen | crates/wvq-runtime/src/behavior.rs:554-580 | a host shows the recorded digests exactly when after every prefix of the actions its state equals the recorded one in all nine fields |
| Replay.ReplayProgram | crates/wvq-runtime/src/behavior.rs:535-547 | succeeds exactly for a valid program and agreeing seeds; returns the states visited |
| Replay.KeptSimulates | crates/wvq-runtime/src/behavior.rs:465-489 | what promotion keeps of any suffix visits the digests of that suffix up to stuttering and ends in its state |
| Replay.PromotionPreservesMeaning | crates/wvq-runtime/src/behavior.rs:456-547 | on a host that realises the trace, with read-only assertions and silent loops, the promoted program visits the trace's digests up to stuttering and ends in its final state |
| Replay.ReplaysAgree | crates/wvq-runtime/src/behavior.rs:535-580 | under those conditions the states the two replays return show the same digests up to stuttering, and the last one is the same |
| Replay.DigestHostsAreSilent | crates/wvq-runtime/src/behavior.rs:76-85 | a host whose whole state is the digest meets the condition on loops |
| Replay.HiddenStateBreaksPromotion | crates/wvq-runtime/src/behavior.rs:484-488 | a concrete host and trace whose promoted program ends elsewhere, because a needed hover was dropped |
| PromotionSafety.PromotionIsSafeExactlyWhen | crates/wvq-runtime/src/behavior.rs:456-547 | promotion keeps the final state on every counting host that realises a trace exactly when every recorded interaction changed the digest (or an assertion did, which no host with read-only assertions realises) |
| PromotionSafety.SafeOnEveryHost | crates/wvq-runtime/src/behavior.rs:456-547 | such a trace is then safe on every host, whatever its state: same final state, same digests up to stuttering |
| PromotionSafety.KeptInteractions | crates/wvq-runtime/src/behavior.rs:465-489 | promotion keeps as many interactions as were recorded exactly when each changed the digest |
| Heal.ApplyHeal | crates/wvq-proof/src/heal.rs:113-156 | the seal check, then the first failing edit's error, else the validated program with the next revision; assertions and obligations are unchanged, so the final guards can never fire |
| HealLaws.RecoveryExactlyWhen | crates/wvq-proof/src/heal.rs:59-111 | a recovery is refused on an XPath, then when no side identifies anything, then on another role or name; otherwise each text is the observed one, or the previous one where nothing was observed |
| HealLaws.RetargetExactlyWhen | crates/wvq-proof/src/heal.rs:158-190 | a step that acts on a target keeps everything but that target; assertions and the other steps are refused, each with its own error |
| HealLaws.EditExactlyWhen | crates/wvq-proof/src/heal.rs:125-148 | an edit changes the step it names or adds one wait right after it, leaves all other steps in place, and fails exactly out of range or with the retargeting error |
| HealLaws.EditsInOrder | crates/wvq-proof/src/heal.rs:125-148 | edits are applied one after another and the first error is final |
| HealLaws.SimulatesExactlyWhen | crates/wvq-proof/src/heal.rs:113-190 | healed steps simulate exactly when the original actions stand in them in order, with only waits between; each is the same, or the same on a target whose role and name, once set, are the same |
| HealLaws.SameActionExactlyWhen | crates/wvq-proof/src/heal.rs:158-190 | the correspondence of two actions, read off their fields |
| HealLaws.FillValuesAre | crates/wvq-proof/src/heal.rs:205-218 | the guarded values are those of the filling, choosing and uploading steps, in order |
| HealLaws.AssertStepsAre | crates/wvq-proof/src/heal.rs:192-203 | the guarded assertions are those of the asserting steps, in order |
| Heal.EditSimulates | crates/wvq-proof/src/heal.rs:125-190 | one accepted edit only inserts a wait or changes a target that keeps its role and accessible name |
| Heal.EditsSimulate | crates/wvq-proof/src/heal.rs:113-156 | so does any accepted list of edits |
| Heal.SimulationComposes | crates/wvq-proof/src/heal.rs:113-156 | healing a healed program still simulates the original |
| Heal.ChainSimulates | crates/wvq-proof/src/heal.rs:59-156 | over any chain of heals the last program simulates the first; a role or name once set never changes |
| Heal.SimulationKeepsMeaning | crates/wvq-proof/src/heal.rs:192-218 | simulation keeps the assertions and the filled values, in order |
| Heal.SimulationWithoutWaits | crates/wvq-proof/src/heal.rs:113-190 | with waits deleted the two programs have the same steps up to targets, one for one |
| Lcov.EncodeLcov | crates/wvq-runtime/src/emit_lcov.rs:9-36 | the text is the header and, per file, ascending DA records: one per listed line, hit exactly when covered |
| Lcov.EncodeFile | crates/wvq-runtime/src/emit_lcov.rs:11-34 | one file record, covered lines overriding uncovered ones |
| Lcov.InsertRanges | crates/wvq-runtime/src/emit_lcov.rs:15-25 | the nested loops set exactly the lines of the ranges and keep the others |
| Lcov.DaRecords | crates/wvq-runtime/src/emit_lcov.rs:26-32 | the map is printed in ascending line order, each line once |
| LcovParse.ParseLcov | crates/wvq-runtime/src/lcov.rs:11-48 | the line loop computes the reference parse, errors included |
| LcovParse.FileCoverageOf | crates/wvq-runtime/src/lcov.rs:50-65 | splits the hits of a file into covered and uncovered runs |
| LcovParse.RangesOfIsNormal | crates/wvq-runtime/src/lcov.rs:50-78 | ascending hits give sorted non-adjacent runs holding exactly the hit, respectively missed, lines |
| LcovParse.RoundTrip | crates/wvq-runtime/src/lcov.rs:11-78 | for every artifact with line-safe paths, parsing what is printed gives its normal form: maximal covered runs, and maximal runs of uncovered minus covered |
| LcovParse.RoundTripOfNormalForm | crates/wvq-runtime/src/lcov.rs:11-78 | an artifact already in normal form comes back identical |
| LcovParse.PathSurvivesExactlyWhen | crates/wvq-runtime/src/lcov.rs:15-25 | a path comes back exactly when it has no backslash and no trailing white space |
| LineRanges.NormalIsUnique | crates/wvq-runtime/src/lcov.rs:67-78 | sorted non-adjacent ranges are determined by the lines they hold |
| RangePushing.PushNormal | crates/wvq-runtime/src/lcov.rs:67-78 | pushing a later line keeps the list normal and adds just that line |
| RangePushing.PushRange | crates/wvq-runtime/src/lcov.rs:67-78 | extends the last range exactly when the line follows it, else appends |
| Decimal.ParsePrint | crates/wvq-runtime/src/emit_lcov.rs:26-31 | a printed number parses back, and is refused exactly above the width of its type |
| GoCover.Merge | crates/wvq-runtime/src/gocover.rs:94-107 | any non-empty ranges become the normal list of the same lines |
| GoCover.ParseRecords | crates/wvq-runtime/src/gocover.rs:12-85 | fails exactly on no record or an invalid range, naming the first; else each side of each file is normal and holds exactly the lines of its records |
| GoCover.MergeAll | crates/wvq-runtime/src/gocover.rs:71-84 | every file is merged on both sides and none is lost |
| GoJson.ParseGoJson | crates/wvq-runtime/src/gojson.rs:39-128 | the event loop over open slots computes the reference run, errors included |
| GoJsonLaws.ParsesExactlyWhen | crates/wvq-runtime/src/gojson.rs:39-138 | lines parse exactly when each is blank or an event with a known action, and no test is left that spoke after it last ended |
| GoJsonLaws.AllRead | crates/wvq-runtime/src/gojson.rs:118-128 | readable lines fail only as truncated, exactly when a test is left open |
| GoJsonLaws.UnreadableLineFails | crates/wvq-runtime/src/gojson.rs:39-116 | otherwise the first unreadable line decides the error |
| GoJsonLaws.CasesAreEnds | crates/wvq-runtime/src/gojson.rs:84-138 | the cases are, in order and exactly, the lines that end a test: its names, its verdict, its duration and all it printed since it last ended |
| GoJson.Decomposes | crates/wvq-runtime/src/gojson.rs:39-138 | the events of one test alone reach that test's part of the state and of the results |
| GoJson.SucceedsExactlyWhenEachTestDoes | crates/wvq-runtime/src/gojson.rs:39-138 | well-formed lines parse exactly when every test's own events parse, and then with the same results per test |
| GoJson.InterleavingIrrelevant | crates/wvq-runtime/src/gojson.rs:39-138 | two interleavings of the same per-test streams agree on success and on every test's results |
| Chunked.DecodeChunked | crates/wvq-proof/src/model.rs:314-338 | the decoding loop computes the reference decoding, limits and errors included |
| Chunked.SizeLineParses | crates/wvq-proof/src/model.rs:318-326 | a hexadecimal size with padding and an extension of any bytes is read exactly when the extension is UTF-8 and the size fits the machine word, and then as its value |
| Chunked.RoundTrip | crates/wvq-proof/src/model.rs:314-338 | decoding any encoding (section 7.1 of RFC 9112) of non-empty chunks of at most 1 MiB in all gives their concatenation exactly when every extension is UTF-8, and is refused otherwise |
| Chunked.ObscureExtensionIsRefused | crates/wvq-proof/src/model.rs:321-322 | a concrete encoding whose quoted extension value holds the byte 255 is refused |
| Chunked.PrefixesFail | crates/wvq-proof/src/model.rs:314-338 | no prefix that stops before the end of the zero-size line decodes |
| Chunked.OverflowsExactlyWhen | crates/wvq-proof/src/model.rs:326-331 | decoding overflows exactly when, after all chunks that can be read within the limit, a line announces 2^64-2 or 2^64-1 |
| Process.SuccessIsComplete | crates/wvq-runtime/src/process.rs:61-185 | over every interleaving, success returns the exit code and exactly the bytes each reader read, in order and within the cap, with both readers gone |
| Process.FailureKillsAndWaits | crates/wvq-runtime/src/process.rs:136-185 | every cancel, deadline or output-limit exit has killed the child and waited for it, and its cause is real |
| Process.KeptOutputWithinCap | crates/wvq-runtime/src/process.rs:187-204 | the collected output never exceeds the combined cap |
| Process.InvStep | crates/wvq-runtime/src/process.rs:107-204 | every step of a reader, the child or the collector keeps the invariant: bytes conserved, end markers counted once, killed before reported |
| Process.FailedRunKillsExactlyWhen | crates/wvq-runtime/src/process.rs:136-204 | over every interleaving, a failed run has killed the child and waited for it exactly when no poll of it failed; after a failed poll it was not killed, and runs on unless it exited by itself |
| Process.PollFailureLeavesChildRunning | crates/wvq-runtime/src/process.rs:175-184 | a concrete run in which polling fails and the child is neither killed nor gone |
| Process.CollectorNeverStuck | crates/wvq-runtime/src/process.rs:136-185 | the collector can always move, except while it waits for a killed child to exit |
| Process.DueStopIsTaken | crates/wvq-runtime/src/process.rs:136-185 | once a stop is due where the collector looks next, every run that returns fails with that cause |
| Process.StopStays | crates/wvq-runtime/src/process.rs:136-185 | a stop, once decided, keeps its cause |
| Process.DoneRunFinishes | crates/wvq-runtime/src/process.rs:160-185 | with the child exited, both readers gone and the channel empty, the next poll returns everything read |
| Process.EarlyPollGoesOn | crates/wvq-runtime/src/process.rs:160-185 | before that a poll goes back to the cancel check and changes nothing |
| Process.EveryRoundPolls | crates/wvq-runtime/src/process.rs:146-185 | whoever waits for a message polls the child before looking at cancel and deadline again or finishing |
| Firewall.AiCostFirewall.constructor | crates/wvq-proof/src/budget.rs:163-169 | nothing used and not exhausted |
| Firewall.AiCostFirewall.WithUsage | crates/wvq-proof/src/budget.rs:173-186 | resumed usage is exhausted exactly when some counter is beyond its ceiling |
| Firewall.AiCostFirewall.Charge | crates/wvq-proof/src/budget.rs:224-230 | granted exactly when the request fits every ceiling it touches; a refusal names the first crossed one, latches exhaustion and uses nothing |
| Firewall.AiCostFirewall.Record | crates/wvq-proof/src/budget.rs:299-317 | adds the request to its counters, saturating |
| Firewall.AiCostFirewall.Refuse | crates/wvq-proof/src/budget.rs:319-334 | latches exhaustion and reports the limit |
| Firewall.AiCostFirewall.CheckCallCeiling | crates/wvq-proof/src/budget.rs:249-267 | refuses exactly when a call counter would pass its ceiling |
| Firewall.AiCostFirewall.CheckTokenCeiling | crates/wvq-proof/src/budget.rs:269-286 | refuses exactly when the token counter would pass its ceiling |
| Firewall.AiCostFirewall.CheckCostCeiling | crates/wvq-proof/src/budget.rs:288-297 | refuses exactly when a limited cost would pass its ceiling |
| Firewall.RunStaysWithinCeilings | crates/wvq-proof/src/budget.rs:224-317 | over any run, fresh or resumed, a counter within its ceiling stays within and one beyond it never moves |
| Firewall.RunConservesUsage | crates/wvq-proof/src/budget.rs:224-317 | a counter ends at its start plus everything granted, clamped at its width only when the ceiling is that width |
| Firewall.ExhaustionLatches | crates/wvq-proof/src/budget.rs:319-334 | a run ends exhausted exactly when it began so or some request was refused |
| Firewall.FullCounterForgets | crates/wvq-proof/src/budget.rs:299-317 | a concrete run granted more tokens than its counter shows |
| LocalModel.CallLocalModel | crates/wvq-proof/src/model.rs:85-161 | each error on its condition in order; only a success spends, exactly the measured call, and only a refused charge exhausts |
| LocalModel.CostIsRoundedUp | crates/wvq-proof/src/model.rs:163-168 | a charge is the least number of micros that pays both token counts at their rates per million, products and sum clamped |
| LocalModel.ReservationCoversCharge | crates/wvq-proof/src/model.rs:101-168 | an accepted reservation covers every charge that passes the usage check, given no saturation and input no dearer than output |
| LocalModel.CallIsNeverRefused | crates/wvq-proof/src/model.rs:85-168 | under that rate condition a call never fails on its final charge |
| LocalModel.ChargeNeverRefusedExactlyWhen | crates/wvq-proof/src/model.rs:101-168 | no possible charge is refused exactly when input is no dearer than output or the budget has room for all tokens at the input rate |
| LocalModel.DearInputCanBeRefused | crates/wvq-proof/src/model.rs:101-168 | a concrete accepted reservation whose charge is refused |
| Flows.MatchFlows | crates/wvq-intelligence/src/flow.rs:150-255 | the loops over base flows, merge marks and leftovers compute the reference lineage |
| Flows.LinksFit | crates/wvq-intelligence/src/flow.rs:154-211 | a base flow takes only unused head flows, each once |
| Flows.CandidatesFit | crates/wvq-intelligence/src/flow.rs:183-194 | surface candidates are exactly the unused head flows with that surface |
| FlowEvidence.PairStateExactlyWhen | crates/wvq-intelligence/src/flow.rs:257-272 | a pair is modified exactly when its nodes differ as multisets, rewired exactly when only its edges do, else unchanged |
| FlowEvidence.OverlapIsCounted | crates/wvq-intelligence/src/flow.rs:274-280 | the node overlap is the number of entries of the base flow that the head flow has |
| FlowEvidence.LinksAreBest | crates/wvq-intelligence/src/flow.rs:154-211 | the reason of a link holds, no better reason was free and no earlier head flow offers the same one; a flow is removed only when none offers any |
| FlowEvidence.MatchesAreExplained | crates/wvq-intelligence/src/flow.rs:150-255 | with distinct head ids every match is explained by the two flows it names: equal surfaces, a shared requirement or two shared nodes, with the state of that pair |
| FlowEvidence.MatchesAreOrdered | crates/wvq-intelligence/src/flow.rs:247-255 | matches are ordered by surface, then by base id, then by head id, an absent id first |
| FlowLaws.HeadFlowsAreConserved | crates/wvq-intelligence/src/flow.rs:150-255 | every head flow appears in exactly one match |
| FlowLaws.BaseFlowsAreConserved | crates/wvq-intelligence/src/flow.rs:154-211 | every base flow appears in at least one match |
| FlowLaws.SeveralMatchesAreSplits | crates/wvq-intelligence/src/flow.rs:154-211 | with distinct ids a base flow appears once, or several times always as a split; no other base id appears |
| FlowLaws.LineageLength | crates/wvq-intelligence/src/flow.rs:150-255 | the output has one match per head flow plus one per removal |
| FlowLaws.NothingIsMerged | crates/wvq-intelligence/src/flow.rs:226-246 | with distinct head ids the merge marking changes nothing |
| FlowEvidence.MergedExactlyWhen | crates/wvq-intelligence/src/flow.rs:226-246 | in every case, a match becomes merged exactly when it links a base flow to a head id that another match links one to; nothing else changes |
| FlowLaws.SelfMatchIsUnchangedExactlyWhen | crates/wvq-intelligence/src/flow.rs:150-255 | a list with distinct surfaces matched against itself is all unchanged exactly when its ids are distinct |
| FlowPreference.SurfaceIsMatchedExactlyWhen | crates/wvq-intelligence/src/flow.rs:158-181 | a base flow is matched by surface to a head flow exactly when the surfaces are equal and no earlier base flow was linked to it |
| FlowPreference.UnrelatedFlowsLeaveTheSurface | crates/wvq-intelligence/src/flow.rs:154-211 | it is matched by surface whenever no earlier base flow has that surface, shares a requirement, or shares two nodes with the head flow |
| FlowPreference.SurfaceIsKeptExactlyWhen | crates/wvq-intelligence/src/flow.rs:154-211 | when earlier base flows related to that head flow are related to no other, it is matched by surface exactly when there are none |
| FlowPreference.LinksAreReported | crates/wvq-intelligence/src/flow.rs:154-211 | the matches of a base flow stand in the lineage right after those of the flows before it |
| FlowLaws.EarlierFlowTakesTheSurface | crates/wvq-intelligence/src/flow.rs:183-194 | two concrete base flows where the first takes, by requirement, the head flow that has the second's surface |
| Clusters.Cluster | crates/wvq-spec-recovery/src/cluster.rs:115-134 | the loops compute the reference clustering, sorted by key |
| ClusterFields.StructuralKeyExactlyWhen | crates/wvq-spec-recovery/src/cluster.rs:137-154 | a commit has a structural key exactly when it carries evidence, and then the first name of the strongest kind it carries |
| ClusterFields.WordsStandBetweenMarks | crates/wvq-spec-recovery/src/cluster.rs:243-248 | the words of a title are its pieces between characters that are neither letters nor digits, in order |
| ClusterFields.TokenExactlyWhen | crates/wvq-spec-recovery/src/cluster.rs:243-248 | the token of a title is its first word of four or more letters that is no noise, in small letters |
| ClusterFields.ClusterLists | crates/wvq-spec-recovery/src/cluster.rs:207-235 | a cluster lists every endpoint, component and title of its members in order and once, and the ids of exactly its members |
| ClusterFields.CapabilityIsFirst | crates/wvq-spec-recovery/src/cluster.rs:207-235 | its capability is that of the first member that names one |
| ClusterFields.ClustersAreOrdered | crates/wvq-spec-recovery/src/cluster.rs:115-134 | clusters stand by the strength of their evidence, then by name, one per key |
| ClusterLaws.GroupsHold | crates/wvq-spec-recovery/src/cluster.rs:115-205 | the groups hold the commits with multiplicity, whatever is measured of them |
| ClusterLaws.CommitsAreConserved | crates/wvq-spec-recovery/src/cluster.rs:115-235 | every commit is in exactly one cluster |
| ClusterOrder.AdjacencyIn | crates/wvq-spec-recovery/src/cluster.rs:157-183 | adjacency groups hold exactly the structureless commits with a structureless neighbour index, keyed by the start of their run |
| ClusterOrder.AdjacencyIsAMaximalRun | crates/wvq-spec-recovery/src/cluster.rs:157-183 | two structureless commits are listed in one adjacency cluster of the output exactly when every index between them is structureless |
| ClusterOrder.GroupsIn | crates/wvq-spec-recovery/src/cluster.rs:115-205 | which group a commit is in depends only on the commits, not on their order: structure, then adjacency, then a shared title token, then alone |
| ClusterOrder.OrderDoesNotMatter | crates/wvq-spec-recovery/src/cluster.rs:115-235 | with distinct ids and indices, permuting the input leaves the output identical |
| ProtectionDeltas.DeltasOf | crates/wvq-proof/src/protection_delta.rs:148-185 | one delta per named flow that is not skipped as a relocation target, in ascending order, each the comparison of its two sides |
| ProtectionDeltas.FlowNames | crates/wvq-proof/src/protection_delta.rs:153-155 | the sorted names of both snapshots |
| ProtectionLaws.PresentStateExactlyWhen | crates/wvq-proof/src/protection_delta.rs:264-356 | exactly one state fits the fields of the two sides: lost critical branches first, then approval, lost protection, changed or lost obligations, relocation, other tests and branches |
| ProtectionLaws.LossesAre | crates/wvq-proof/src/protection_delta.rs:347-372 | lost critical branches and lost obligations are those of the base that the head lacks, minus approved replacements |
| ProtectionLaws.FlowInIsEntry | crates/wvq-proof/src/protection_delta.rs:148-185 | a flow is read from its first entry in a snapshot |
| ProtectionLaws.RelocatedIsFirst | crates/wvq-proof/src/protection_delta.rs:148-185 | a flow moves to the target of its first relocation |
| ProtectionLaws.ReportedExactlyWhen | crates/wvq-proof/src/protection_delta.rs:148-185 | a flow has a delta exactly when a side has it and no flow of the base moves onto its name |
| ProtectionLaws.DeltasTell | crates/wvq-proof/src/protection_delta.rs:148-263 | every delta tells what the first entries of its flow say: state, tests, lost branches and lost obligations |
| ProtectionDeltas.LocalLossIsReportedExactlyWhen | crates/wvq-proof/src/protection_delta.rs:148-356 | a critical branch of a base flow is reported lost exactly when head lacks it, its absence is not approved and it is not a relocation target; a protected flow is then Lost |
| ProtectionDeltas.RelocationTargetHidesItsLoss | crates/wvq-proof/src/protection_delta.rs:166-173 | a concrete relocation onto a base flow whose lost branch no delta reports |
| ProtectionGate.GateProtection | crates/wvq-proof/src/protection_checks.rs:109-127 | the findings are exactly those some delta, test change or trend raises, sorted by check and subject |
| ProtectionLaws.FindingsAre | crates/wvq-proof/src/protection_checks.rs:109-323 | a finding is raised exactly when the fields of some delta, changed test or trend call for it, with its check, severity and subject |
| ProtectionLaws.TestFindingsAre | crates/wvq-proof/src/protection_checks.rs:254-304 | what the change of one test raises, read off its fields |
| ProtectionLaws.TrendFindingsAre | crates/wvq-proof/src/protection_checks.rs:306-323 | a trend is reported exactly when it has three points or more, never rises and ends below its start |
| ProtectionLaws.FindingsAreOrdered | crates/wvq-proof/src/protection_checks.rs:120-126 | findings stand by check, then by subject |
| ProtectionGate.LostBranchRaisesAnError | crates/wvq-proof/src/protection_checks.rs:205-252 | a lost critical branch raises an error whatever else head adds, and a second one when tests grew |
| ProtectionGate.AxisFrom | crates/wvq-command-bus/src/service/verify_axes.rs:7-44 | the axis lists exactly the lost flows, lost branches, errors and warnings, and blocks exactly on an error or a lost branch |
| ChangeVerdicts.ProofAxisOf | crates/wvq-proof/src/change_verdict.rs:492-534 | counts, lists and state of the axis agree with the outcomes |
| ChangeVerdicts.Compose | crates/wvq-proof/src/change_verdict.rs:421-470 | the reasons are all reasons sorted by rank, and the state is that of the least rank that fires |
| ChangeVerdicts.BlockingRanks | crates/wvq-proof/src/change_verdict.rs:536-665 | a reason of rank 1 to 5 is pushed exactly when its rule fires |
| ChangeVerdicts.OtherRanks | crates/wvq-proof/src/change_verdict.rs:670-844 | a reason of rank 6 to 9 is pushed exactly when its rule fires |
| ChangeVerdicts.SortedRanks | crates/wvq-proof/src/change_verdict.rs:421-470 | sorting loses no rank and puts the least first |
| ChangeVerdicts.StateIsFirstRank | crates/wvq-proof/src/change_verdict.rs:472-479 | the state of the first reason is the state of the first rule that fires |
| VerdictFields.ReasonsAre | crates/wvq-proof/src/change_verdict.rs:421-844 | a reason with its rank, code, axis and subject is given exactly when some outcome, finding, debt item, decision or axis of the inputs calls for it |
| VerdictFields.ReasonsAreOrdered | crates/wvq-proof/src/change_verdict.rs:441-446 | reasons stand by rank, then by code, then by subject |
| VerdictFields.LimitationsAre | crates/wvq-proof/src/change_verdict.rs:695-753 | the limitations gain exactly the names of the axes that were in scope and not measured |
| VerdictLaws.BlockedExactlyWhen | crates/wvq-proof/src/change_verdict.rs:472-479 | a change is blocked exactly by rank 1, 2 or 3, or by rank 5 when rank 4 does not fire |
| VerdictLaws.PassingIsFullyEvidenced | crates/wvq-proof/src/change_verdict.rs:695-753 | a passing state means every proof is proven, none of the six required axes is unmeasured and no critical branch is lost |
| VerdictLaws.LostBranchAlwaysBlocks | crates/wvq-proof/src/change_verdict.rs:551-575 | a lost critical branch blocks, whatever every other input says |
| VerdictLaws.LocalLossBlocksTheChange | crates/wvq-proof/src/change_verdict.rs:421-575 | from the snapshots on: a protected flow's lost critical branch is in a Lost delta, in an error finding, on the axis, and blocks the change |
| VerdictLaws.GateBlockReachesTheVerdictExactlyWhen | crates/wvq-proof/src/change_verdict.rs:551-575 | a blocking gate fires the protection rule exactly unless all its errors are of check 6 and no delta lost a branch |
| VerdictLaws.HighRiskDegradationPasses | crates/wvq-proof/src/change_verdict.rs:563-566 | a degraded high-risk flow raises an error, the axis blocks, and the change passes |
| VerdictLaws.MissingProofOutranksAReturnedRegression | crates/wvq-proof/src/change_verdict.rs:626-665 | adding an unproven mandatory obligation turns a block by a returned regression into missing evidence |

## Left out

- Human-readable text (details, reasons' wording, explanations, limitation strings of the mutation document): only the fields that decisions read are kept; limitations of the verdict are kept as axis names.
- Strings are sequences of ASCII characters: character boundaries, Unicode white space and case folding are not modelled.
- SHA-256 ids (mutants, decisions, digests, clusters) are the tuples that are hashed, so hashing is injective by construction.
- JSON, XML and serde decoding: graph values, go test lines, coverage profile records and fixtures arrive decoded, and an undecodable line is a value of its own.
- HTTP: endpoint parsing, headers and sockets; the model reply arrives decoded and only chunked decoding is modelled.
- File system, Git, worktrees, process spawn and wall clock: the deadline and the verdict of a judged mutant are function parameters, changed lines per file are an input.
- Process: the results of killing and waiting are ignored by the source and so here; argument checks, the cancel check before the spawn and a failing send of a reader are not steps of the protocol.
- MutationRun.ExecuteSourceMutation: one worktree run of a mutant (`execute_one`) is the judge parameter; restoring a file cannot fail, and a judge cannot fail either.
- MutationRun.ProducedDocumentIsValidExactlyWhen: assumes surfaces with ascending obligations and distinct mutants, which the surface map and disjoint file lists give.
- MutationLaws.FlipIsUndoneByReplanning: states the word flips; OperatorFlips covers whether the inverse of an operator flip is planned, not its place in the new plan.
- MutationPlan.PlanSourceMutants: the match loops of the planners share one scanning loop over a rule, and their white-space and digit scans are functions.
- BindingReach.ProductionNodesForBinding: the order in which neighbours are taken is left free, so which of several shortest paths is kept is not stated.
- Replay.PromotionPreservesMeaning: its condition on loops is sufficient for one host; the exact condition on traces is PromotionSafety.PromotionIsSafeExactlyWhen.
- Recorder links of API calls and coverage, the edges of a trace and its coverage contribution: they feed no modelled decision.
- Chunked.DecodeChunked: the addition of 2 to a size of 2^64-2 or 2^64-1, which leaves the machine word, is an error here.
- GoCover.ParseRecords: the mode header, field splitting and number parsing of the profile text are left out; records arrive decoded.
- LocalModel.CallLocalModel: parsing the endpoint and its error come before everything modelled; the response arrives decoded.
- MutationPolicies.FromContract: unsupported operator names are dropped, as they only feed a limitation text.
- Heal.ApplyHeal: seals are opaque strings that are compared; how a seal is computed is not modelled.
- Flow matching: the kind and value of an entry are one surface, and fingerprints are not modelled.
- Code surfaces: how obligation surfaces are built and merged is left out as set union; surfaces are an input, one per obligation.
- The verdict's exit code, debt policy classification and protection summary counts are small tables.
- Paths are judged by Unix rules, also where the source asks the platform.
- Selections above saturation: SelectionCost.PlanWithinHarmonicFactor and SelectionOrder.BeatsIsExact need products that fit 64 bits; coverage and order independence do not.
- CLI, MCP, Studio, the SQLite store, browser bridge and report formats: plumbing and I/O.
