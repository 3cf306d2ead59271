# ControlGate scanner: verified models

Dafny models of the algorithmic core of the ControlGate scanner backend, one module per component, with proofs of what
the components are for. Code that rewrites lists, dictionaries, queues and counters is modelled as methods and classes
with loops; verdict functions, scores and relations are functions. Every method is proved against a specification, and
the properties of that specification are lemmas beside it. `dafny verify dfyconfig.toml` checks everything.

* **Graph search.** `Graphs` fixes walks and adjacency lists. `CycleDetection` is the depth-first detector: it answers
  true exactly when a directed cycle is reachable from a listed node. `QueryBfs` and `HopBfs` are the two breadth-first
  path finders, one keyed by node and one by (node, file crossings). Both are shown sound, and both return a shortest
  path first and are exact up to their depth whenever the queue drains: the first always, the second
  (`HopCompleteness`) wherever files are settled, and `HopMisses` determines the file maps on which that is every
  graph. Both return every way into a target by its last step, not just one (`HopRoutes`). Both also bound how many operations a run can take, so the operation caps are shown unreachable on graphs with
  few enough entries.
* **Clustering and deduplication.** `UnionFind` is the forest with path halving; `Clustering` shows that the per-file
  buckets and the forest produce exactly the connected components of the "same finding" relation, which is not
  transitive. `PipelineDedupe` merges each component into its best finding and keeps every member's own rule with its
  ASVS controls. `ScanDedupe` is the four-pass keyed deduplication of a scan: everything dropped is covered, the output
  is settled, and a second run changes nothing.
* **Rate limiter.** `RateLimiter` relates the swept, pruned buckets to the naive specification "fewer than `limit`
  accepted calls in the last window", over whole runs, and shows for which configurations they agree.
* **Workers and providers.** `WorkerQueue` is a step system over every interleaving of the classifier workers;
  `Classifier` adds the budget split, the fallback drain and the final sort, over the ledger of `ClassifierLedger`.
  `ProviderPool` is the exhaustion state machine of the LLM pool, one call after the other; `PoolInterleaving` is the
  step system of several calls on one pool.
* **Data flow.** `ScopeClimb` is the climb through the scope table: what it decides, and on which tables it ends.
  `ReachingDefs` builds definition-to-use edges from the nearest visible definition.
* **Text.** `LabelMatcher` is the tokenizing matcher against its declarative meaning; `Snippets` is the snippet printer
  and the gutter parser that reads it back.
* **Scores and figures.** `PathScore` bounds the discovery score and the severities it can reach. `EvidenceMerge` is the
  verdict merge, with the exact limits of its monotonicity. `ScanTotals` is the severity totals and the live-result
  marks, `Compliance` the per-chapter and per-level figures, `PortfolioTrend` the carried-forward trend and
  `PortfolioSlices` the recent scans it is made of.
* **Shared vocabulary.** `Base`, `Dicts` (insertion-ordered dictionaries), `Sorting` (stable sort), `Strings`,
  `Tallies` (counting into a dictionary) and `Rounding` (round half to even).

What the proofs found, stated as lemmas:

* The limiter agrees with the naive specification on every run if and only if every limit is at least 1 and every window
  is at most 3600 seconds. Longer windows are cut short by the sweep; a limit below 1 still lets a first call through.
* In the query path finder, the operation cap of at least 5000 cannot be reached on a graph with fewer than 5000
  adjacency entries.
* `_dedupe_vulnerabilities` of the pipeline keeps the primary rule of every merged finding. It keeps every rule its inputs
  already carried exactly when each carried rule is some member's own rule or is carried by the member that becomes the
  primary; an input on which every run loses one is given.
* The hop-budgeted search remembers how many files were crossed but not the last one, so it can miss a sink through a node
  without a file; such an input is given. Over all graphs on a set of nodes it is complete exactly when every node has a
  file, or at most one file is named, or at most two nodes lack a file and no two nodes share one, or one node lacks a
  file among two files.
* The sink-line search takes a gutter for the sink exactly when the sink occurs in the gutter of some line number or begins
  with a tail of one; for every number of context lines, it stops at the right line on all snippets printed with them if
  and only if no gutter they can show does so (or the sink holds a line break). Line numbers are such sinks.
* The scope climb runs forever exactly when it comes back to a scope it passed without meeting the definition's scope;
  two scopes that name each other as parents are enough.
* With several calls on one LLM pool, the sticky provider stays usable exactly as long as no reply arrives from a
  provider exhausted in the meantime, and a call gives up only when all it may use is exhausted, unless soft exhaustion
  is reset while it waits; runs on which each fails are given.
* If within-budget slices are left to the fallback, every worker's pool had died; one surviving worker means all of them
  were attempted.
* A day takes in the repositories' percentages it would over full histories exactly when every slice of recent scans
  reaches back to that day (or its history began later), and only then is the day's rounded mean the one full histories
  give whatever the percentages were: for any other stamps there are percentages at which the point is off.
* At the default threshold a discovered path that crosses no boundary survives only if it has two nodes and no sanitizer
  hit; no discovered path can ever be "high" or "critical", and the bound 0.5025 is reached.
* A level is shown as 100% with up to one control in two hundred failing, because the percentage is rounded.
* A pass added to a failure lowers V3.5.8 (exactly then), and where the first finding in a list decides, order
  matters unless the findings agree.
* A failing re-test whose verdict is ranked below zero would not confirm its static finding.

## Model

| member | source | states |
|---|---|---|
| Graphs.BuildAdjacency | semantic_engine/query_executor/executor.py:647-657 | the loop builds exactly the adjacency dictionary of the kept edges, keys in order of first edge |
| Graphs.AdjacencyMeaning | semantic_engine/query_executor/executor.py:647-657 | two nodes are adjacent iff some edge of an allowed kind joins them |
| Graphs.EveryEdgeCounts | semantic_engine/pipeline.py:819-825 | without a filter two nodes are adjacent iff some edge joins them, self-loops and all kinds included |
| Graphs.ListedKindsCount | semantic_engine/query_executor/executor.py:647-657 | with one, iff some edge of a listed kind does |
| Graphs.EntriesAreKeptEdges | semantic_engine/query_executor/executor.py:647-657 | the adjacency lists hold one entry for each kept edge, so entry bounds are edge bounds |
| CycleDetection.FinishedReachNoCycle | semantic_engine/pipeline.py:827-842 | no walk from a finished node closes on itself or leaves the finished nodes |
| CycleDetection.Descend | semantic_engine/pipeline.py:827-842 | along any walk from a finished node the finishing positions strictly fall |
| CycleDetection.ClosingWalkGivesCycle | semantic_engine/pipeline.py:809-849 | a closing walk from a listed node exhibits a reachable cycle |
| CycleDetection.Detector.HasCycle | semantic_engine/pipeline.py:827-842 | false: the node is finished and the search state is restored; true: a closing walk exists from the root of the recursion |
| CycleDetection.DetectCycles | semantic_engine/pipeline.py:809-849 | terminates and answers true iff a directed cycle (self-loops included) is reachable from a listed node |
| QueryBfs.FirstPathsAreShortest | semantic_engine/query_executor/executor.py:659-726 | every walk shorter than what is queued ends at a node already reached by a path no longer than it |
| QueryBfs.DrainedIsExact | semantic_engine/query_executor/executor.py:659-726 | with an empty queue a target has a returned path iff a walk of at most `max_path_length` nodes reaches it with no target before it |
| QueryBfs.BfsPaths | semantic_engine/query_executor/executor.py:659-726 | returned paths are simple walks to targets in ascending length, each target's first is shortest; complete when drained; each takes a shortest way to its last step and, when drained, every edge into a target from a node reached short of the limit is some path's last step; drains whenever the path cap is not hit and entries are below 5000; the path cap holds, and the operation cap of 30000, 15000 or 5000 is used up exactly when it stops a run; a limit below one works like one |
| HopBfs.BfsPaths | semantic_engine/path_discovery.py:262-316 | the loops compute the specified run, one queue entry and one neighbour at a time, and report whether the queue drained; under a negative hop budget only a source that is a sink is returned |
| HopBfs.StepCosts | semantic_engine/path_discovery.py:301-307 | a step costs a hop iff both nodes are known with a file name and the names differ |
| HopBfs.CallCaps | semantic_engine/path_discovery.py:273-294 | at most `max_candidates` paths, at most 5000 entries taken off the queue, and exactly 5000 when a call stops with entries queued and paths to spare |
| HopBfs.StepKeeps | semantic_engine/path_discovery.py:262-316 | one iteration keeps every invariant: bookkeeping, levels, each state queued once, each visited state accounted for, expanded states closed |
| HopBfs.PendingExpand | semantic_engine/path_discovery.py:262-316 | each expansion pays exactly for its own entries in the operation bound |
| HopBfs.StepWithinOps | semantic_engine/path_discovery.py:262-316 | an iteration never uses more operations than there are queued entries and entries left to scan |
| HopCompleteness.CallIsSound | semantic_engine/path_discovery.py:262-316 | returned paths are simple, in ascending length, within depth and hop budget, and meet no sink before their last node; on a graph with fewer than 5000 entries per hop level in total only the path cap can stop the run |
| HopCompleteness.WalksAreDominated | semantic_engine/path_discovery.py:262-316 | every walk within budget and depth, no longer than what is queued, ends at a node visited with no more hops by no longer a path |
| HopCompleteness.FirstPathsAreShortest | semantic_engine/path_discovery.py:262-316 | where the search can be trusted, the first path returned for a sink is as short as any walk to it within the budget |
| HopCompleteness.DrainedIsExact | semantic_engine/path_discovery.py:262-316 | with the queue empty, a sink has a returned path iff a walk within budget and depth reaches it with no sink before |
| HopCompleteness.CallIsComplete | semantic_engine/path_discovery.py:262-316 | both, for a whole call, on every graph whose last files are settled by node and hop count and on every graph over a harmless file map |
| HopCompleteness.KnownFilesAgree | semantic_engine/path_discovery.py:262-316 | enough for that: every node reachable within the budget that is no sink has a file |
| HopRoutes.StepKeepsRoutes | semantic_engine/path_discovery.py:297-314 | one iteration keeps, for every expanded state and every edge from it into a sink within the budget, the way on queued, too deep or returned |
| HopRoutes.CallKeepsRoutes | semantic_engine/path_discovery.py:262-316 | so does a whole call, on any graph |
| HopRoutes.DrainedHasRoutes | semantic_engine/path_discovery.py:262-316 | where the search can be trusted, a drained call returns a path for every edge into a sink that ends a walk within budget and depth |
| HopMisses.DiamondMisses | semantic_engine/path_discovery.py:262-316 | on any file map with room for it, a graph on which a drained run misses a reachable sink |
| HopMisses.MissedSink | semantic_engine/path_discovery.py:262-316 | one such input in full: source in file a, ways through b and c to a node without a file, a sink in c, one hop allowed |
| HopMisses.CompleteIff | semantic_engine/path_discovery.py:262-316 | over all graphs on a set of nodes, the search is complete and shortest first iff the file map is harmless |
| UnionFind.RootIsReached | semantic_engine/pipeline.py:105-109 | climbing parent links from any element ends at its root |
| UnionFind.Halve | semantic_engine/pipeline.py:105-109 | one step of path halving changes no element's root and climbs strictly |
| UnionFind.Link | semantic_engine/pipeline.py:111-114 | hanging one root under another relabels exactly the elements of the first |
| UnionFind.Forest.Find | semantic_engine/pipeline.py:105-109 | terminates at the root the old links lead to; path halving leaves every root as it was |
| UnionFind.Forest.Union | semantic_engine/pipeline.py:111-114 | afterwards the two classes are one and no other class changed |
| Clustering.SameFindingMeaning | semantic_engine/pipeline.py:70-89 | findings that report some line are the same iff they lie in one file, their sinks normalise alike and some line is reported by both |
| Clustering.InvertedIsAlone | semantic_engine/pipeline.py:70-89 | a finding is the same as itself iff its line range is not inverted |
| Clustering.ComponentsAgree | semantic_engine/pipeline.py:92-126 | findings of one component lie in one file and their sinks normalise alike |
| Clustering.LinkedSym | semantic_engine/pipeline.py:70-89 | the same-finding test is symmetric, so a chain of it can be walked back |
| Clustering.LinkedTrans | semantic_engine/pipeline.py:70-89 | chains join, so being linked is transitive although the test is not |
| Clustering.LabelsAreComponents | semantic_engine/pipeline.py:92-126 | two findings end with one root iff a chain of same-finding links joins them |
| Clustering.BucketsSuffice | semantic_engine/pipeline.py:99-121 | comparing only within each file's bucket joins every linked pair |
| Clustering.LabelsPartition | semantic_engine/pipeline.py:123-126 | reading the clusters off the roots loses and repeats no finding and keeps input order |
| Clustering.ClusterBySameFinding | semantic_engine/pipeline.py:92-126 | the output is the partition of the input into connected components of the same-finding relation |
| PipelineDedupe.Best | semantic_engine/pipeline.py:778-796 | the chosen finding is the first of the rank-maximal ones |
| PipelineDedupe.DedupeVulnerabilities | semantic_engine/pipeline.py:756-807 | one merged finding per component, in order |
| PipelineDedupe.MergeKeepsBest | semantic_engine/pipeline.py:780-805 | the survivor is the best member unchanged but for its contributing rules, and no member outranks it |
| PipelineDedupe.SurvivorIsSurest | semantic_engine/pipeline.py:778-796 | if any member is VULNERABLE so is the survivor, and if any is LIKELY_VULNERABLE the survivor is that or more |
| PipelineDedupe.SurvivorAmongAlike | semantic_engine/pipeline.py:778-796 | among members judged alike: a snippet if any has one, then the highest confidence, then the highest severity, then the shortest path |
| PipelineDedupe.MergeIdentities | semantic_engine/pipeline.py:796-805 | the survivor names the rules of every member plus the primary's own contributions, nothing else |
| PipelineDedupe.EveryRuleSurvives | semantic_engine/pipeline.py:756-807 | every input rule survives as primary or contributing in its own component's survivor, which it does not outrank |
| PipelineDedupe.NoRuleInvented | semantic_engine/pipeline.py:756-807 | every rule a survivor names came from a member of its component |
| PipelineDedupe.SurvivorsDiffer | semantic_engine/pipeline.py:756-807 | no two survivors are the same finding |
| PipelineDedupe.DedupeIsIdempotent | semantic_engine/pipeline.py:756-807 | a second deduplication is the identity |
| PipelineDedupe.FormatControls | semantic_engine/pipeline.py:929-937 | the formatted controls are, without repetition, exactly those of the finding's rules that resolve |
| PipelineDedupe.EveryControlSurvives | semantic_engine/pipeline.py:929-937 | each control of each resolving input rule appears in a survivor of that rule's component |
| PipelineDedupe.ClusterKeepsAllIff | semantic_engine/pipeline.py:796-805 | a survivor speaks for every rule its members spoke for iff each carried rule is a member's own or is carried by the primary |
| PipelineDedupe.RulesSurviveIff | semantic_engine/pipeline.py:756-807 | over a whole run, no finding loses a rule it spoke for iff that holds in every component |
| PipelineDedupe.RuleIsLost | semantic_engine/pipeline.py:756-807 | two reports of one finding on which every run loses the rule the weaker one carried |
| ScanDedupe.BetterMeaning | app/services/scan_service.py:360-365 | a data-flow finding beats a regex one, then the longer path wins, then the higher confidence |
| ScanDedupe.KeyCoversMeaning | app/services/scan_service.py:414-464 | in step 1 a finding gives way only to one at its own sink or line that it does not beat, or to a data-flow sink of its type and file within three lines |
| ScanDedupe.SupersededIff | app/services/scan_service.py:434-450 | nothing is kept at a regex finding's type, file and line iff some data-flow finding of the input has its sink within three lines |
| ScanDedupe.SurvivorsAreApart | app/services/scan_service.py:388-487 | no two survivors share a sink or a line, and no regex survivor is within three lines of a data-flow sink |
| ScanDedupe.KeepBestDfg | app/services/scan_service.py:414-432 | pass 1 keeps, per data-flow key, the best-scored finding and passes the regex findings on |
| ScanDedupe.DropSuperseded | app/services/scan_service.py:434-450 | pass 1b drops exactly the regex findings within 3 lines of a data-flow sink of their type and file |
| ScanDedupe.KeepBestRegex | app/services/scan_service.py:455-464 | pass 1c keeps the best-scored regex finding per key |
| ScanDedupe.CollapsePaths | app/services/scan_service.py:472-487 | the last pass keeps one finding per data-flow path, the better one in the earlier place |
| ScanDedupe.DedupeVulnerabilities | app/services/scan_service.py:388-487 | the four loops compute the specified composition |
| ScanDedupe.KeepBestCovers | app/services/scan_service.py:414-430 | a keyed pass keeps, for every finding, one of its key with no lower score |
| ScanDedupe.CollapseCovers | app/services/scan_service.py:472-487 | each finding has a survivor that is itself or shares its path with no lower score |
| ScanDedupe.EveryFindingIsCovered | app/services/scan_service.py:388-487 | every input finding is linked by the code's rules to a survivor |
| ScanDedupe.DfgCoverKeepsScore | app/services/scan_service.py:388-487 | a data-flow finding is covered by a data-flow survivor with no lower score |
| ScanDedupe.DedupeSettles | app/services/scan_service.py:388-487 | survivors come from the input, share no key and no non-empty path, and no regex survivor is near a data-flow one |
| ScanDedupe.SettledIsFixed | app/services/scan_service.py:388-487 | a settled list is returned unchanged |
| ScanDedupe.DedupeIsIdempotent | app/services/scan_service.py:388-487 | rerunning on the output returns it |
| RateLimiter.Limiter.SweepExpiredBuckets | app/core/rate_limit.py:39-50 | removes exactly the buckets whose newest entry is stale |
| RateLimiter.Limiter.CheckRateLimit | app/core/rate_limit.py:53-79 | decision and new state are the specified step, sweep counter included |
| RateLimiter.RefinesNaive | app/core/rate_limit.py:39-79 | over every run with non-decreasing time, each call is accepted iff fewer than `limit` accepted calls of its key lie in the closed last window |
| RateLimiter.NeverMoreThanLimit | app/core/rate_limit.py:53-79 | no window, wherever it ends, holds more than `limit` accepted calls |
| RateLimiter.SweptEveryThousand | app/core/rate_limit.py:39-61 | the sweep runs on every thousandth call and leaves only keys with a call accepted within the hour before it |
| RateLimiter.LimitBelowOneDiffers | app/core/rate_limit.py:63-79 | a limit below 1 still accepts the first call |
| RateLimiter.LongWindowDiffers | app/core/rate_limit.py:39-50 | for any limit of at least 1 and any window above 3600 s a run exists where the sweep changes a decision |
| RateLimiter.RefinesNaiveIff | app/core/rate_limit.py:39-79 | agreement on all runs holds iff all limits are at least 1 and all windows at most 3600 s |
| WorkerQueue.TakeKeeps | semantic_engine/classifier/classifier.py:191-221 | pulling a slice keeps every slice queued, in flight or classified exactly once, and makes progress |
| WorkerQueue.FinishKeeps | semantic_engine/classifier/classifier.py:191-221 | finishing a slice keeps that invariant and makes progress |
| WorkerQueue.QuitKeeps | semantic_engine/classifier/classifier.py:191-221 | a worker leaves, because its pool died or because it saw an empty queue, without losing a slice |
| WorkerQueue.RunWorkers | semantic_engine/classifier/classifier.py:182-236 | under every interleaving: terminates, attempts no more than were queued, each slice is classified by a worker, with what that worker was answered, or still queued; slices are left only if every pool died, and a worker gives up only on a dead pool |
| Classifier.CutIsByConfidence | semantic_engine/classifier/classifier.py:144-186 | no slice beyond the budget is more confident than one within |
| Classifier.ClassifySlices | semantic_engine/classifier/classifier.py:121-265 | every slice classified exactly once by one of the four routes, LLM attempts within the budget, no over-budget slice outranks a queued one, results sorted by severity then confidence; workers start whenever there is LLM work and at least one is configured, as many as configured but no more than slices; slices are left over only if all of them stopped because their pools died, and none are if pools do not die; worker results are what the workers were answered |
| Classifier.ClassifyWithLlm | semantic_engine/classifier/classifier.py:168-245 | the phases with the model on, over the slices sorted by confidence |
| ClassifierLedger.ConfidenceOrder | semantic_engine/classifier/classifier.py:144-160 | more confident means earlier among critical, high, medium, low |
| ClassifierLedger.SeverityOrder | semantic_engine/classifier/classifier.py:257-263 | more severe means earlier among critical, high, medium, low, info, then the higher confidence |
| ProviderPool.Pool.TryProvider | semantic_engine/classifier/llm_pool.py:303-376 | a reply changes nothing, an error changes exactly the exhaustion sets and sticky provider its class calls for |
| ProviderPool.Pool.OrderEntries | semantic_engine/classifier/llm_pool.py:269-282 | the attempt order is the sticky provider first, if eligible, then the eligible others in list order |
| ProviderPool.Pool.Call | semantic_engine/classifier/llm_pool.py:241-300 | a call is the specified cascade over that order |
| ProviderPool.Pool.ResetSoftExhausted | semantic_engine/classifier/llm_pool.py:146-161 | the whole new state after a reset |
| ProviderPool.Pool.IsAvailable | semantic_engine/classifier/llm_pool.py:380-383 | the scan answers true iff some registered provider is not exhausted |
| ProviderPool.ErrorKeepsConsistent | semantic_engine/classifier/llm_pool.py:303-376 | any failure keeps `exhausted` = soft ∪ hard with no exhausted sticky provider, exhausts the one that failed, and hardens it only for a daily quota |
| ProviderPool.ErrorMeaning | semantic_engine/classifier/llm_pool.py:325-376 | after a failure exactly these are newly exhausted: all of the provider on a scraping block, the failed entry otherwise; hard for a daily quota without a scraping block, soft otherwise; and the sticky entry is dropped iff it is one of them |
| ProviderPool.BlockedProviderIsLeft | semantic_engine/classifier/llm_pool.py:290-361 | after a scraping block no entry of that provider is tried in the rest of the call |
| ProviderPool.OrderedMeaning | semantic_engine/classifier/llm_pool.py:269-282 | the order holds each eligible provider once and no other, sticky first |
| ProviderPool.CallIsFair | semantic_engine/classifier/llm_pool.py:241-300 | each call tries eligible providers at most once, sticky first, keeps the invariant, makes the answering provider sticky, and gives up iff every provider allowed for that severity is exhausted |
| ProviderPool.AvailableAfterGivingUp | semantic_engine/classifier/llm_pool.py:380-383 | after giving up, the pool still reports itself available iff a critical-only provider was held back |
| ProviderPool.ResetLeavesHard | semantic_engine/classifier/llm_pool.py:146-161 | after a reset the exhausted set is exactly the hard set, and the sticky provider is kept |
| ProviderPool.HardGrows | semantic_engine/classifier/llm_pool.py:146-376 | over every sequence of calls and resets the hard set never shrinks |
| ProviderPool.HardIsQuotaSeen | semantic_engine/classifier/llm_pool.py:303-376 | over every such sequence, a provider is hard-exhausted iff some attempt on it reported a daily quota |
| PoolInterleaving.HardIsQuotaAnswered | semantic_engine/classifier/llm_pool.py:241-376 | over every interleaving of calls and resets, `exhausted` = soft ∪ hard, and hard are exactly those that reported a daily quota to a waiting call |
| PoolInterleaving.HardGrows | semantic_engine/classifier/llm_pool.py:241-376 | along every interleaving the hard set never shrinks |
| PoolInterleaving.StickyAllAlongIff | semantic_engine/classifier/llm_pool.py:290-297 | no sticky provider is ever exhausted along a run iff no reply arrives from a provider exhausted since its call began to wait |
| PoolInterleaving.LateReplyHappens | semantic_engine/classifier/llm_pool.py:290-297 | two calls on one provider after which it is sticky and exhausted at once |
| PoolInterleaving.ResetRepairsSticky | semantic_engine/classifier/llm_pool.py:146-161 | even then a reset that finds soft exhaustion leaves a usable sticky provider or none, and one that finds none changes nothing |
| PoolInterleaving.GivesUpIff | semantic_engine/classifier/llm_pool.py:269-300 | on every interleaving without resets, a call that begins or has had a failure gives up iff every provider its severity allows is exhausted by then; nothing else makes one give up |
| PoolInterleaving.RevivedIsMissed | semantic_engine/classifier/llm_pool.py:146-300 | with a reset while a call waits, it gives up although a provider it had passed is available again |
| PoolInterleaving.AloneIsSequential | semantic_engine/classifier/llm_pool.py:241-300 | a call nothing interrupts ends in the state, reply and attempts of the sequential cascade |
| ScopeClimb.IsVisibleScope | app/domain/analysis/cfg_dfg_extractor.py:316-338 | wherever the climb does not loop it terminates and accepts exactly equal, absent or enclosing scopes |
| ScopeClimb.ClimbBound | app/domain/analysis/cfg_dfg_extractor.py:316-338 | a climb that does not loop is no longer than the table plus one |
| ScopeClimb.ClimbEndsIff | app/domain/analysis/cfg_dfg_extractor.py:316-338 | on any table, the climb's iterations give an answer iff it never comes back to a scope it passed without meeting the definition's |
| ScopeClimb.AnswerIsRight | app/domain/analysis/cfg_dfg_extractor.py:316-338 | on any table, an answer the iterations give is whether the definition's scope encloses the use's |
| ScopeClimb.MutualParentsNeverAnswer | app/domain/analysis/cfg_dfg_extractor.py:316-338 | on two scopes that are each other's parent, the climb for a third is still under way after any number of iterations |
| ScopeClimb.ClimbedPast | app/domain/analysis/cfg_dfg_extractor.py:316-338 | a climb that went as far as it can without meeting a scope shows that the scope encloses nothing on it |
| ReachingDefs.NearestMeaning | app/domain/analysis/cfg_dfg_extractor.py:275-313 | the choice is the visible definition on the greatest line strictly above the use, the first listed on equal lines, and none only when there is none |
| ReachingDefs.Builder.FindReachingDefinition | app/domain/analysis/cfg_dfg_extractor.py:275-313 | collecting, sorting and taking the head computes that choice |
| ReachingDefs.Builder.BuildDfg | app/domain/analysis/cfg_dfg_extractor.py:197-265 | the edges are those of every symbol, in table order, whenever every climb made ends |
| ReachingDefs.AcyclicIsBuildable | app/domain/analysis/cfg_dfg_extractor.py:197-265 | on an acyclic scope table every climb ends |
| ReachingDefs.Builder.EdgesForVariable | app/domain/analysis/cfg_dfg_extractor.py:229-261 | the inner loop emits exactly the edges of one variable |
| ReachingDefs.OneEdgePerUse | app/domain/analysis/cfg_dfg_extractor.py:229-261 | one edge for each use occurrence with a reaching definition, in order, and none for the others |
| ReachingDefs.EdgeIff | app/domain/analysis/cfg_dfg_extractor.py:229-261 | an edge is emitted iff its use occurs and its definition is the one that flows to it |
| ReachingDefs.EveryEdge | app/domain/analysis/cfg_dfg_extractor.py:197-265 | the same over the whole symbol table |
| ReachingDefs.EdgeLeadsDown | app/domain/analysis/cfg_dfg_extractor.py:197-313 | an edge leads from a definition node of its symbol to a use node of it on a later line that sees its scope |
| ReachingDefs.NothingBetween | app/domain/analysis/cfg_dfg_extractor.py:275-313 | no other visible definition of the symbol lies strictly between the two lines |
| LabelMatcher.CloseRun | semantic_engine/query_executor/executor.py:536-565 | closing a token at a separator keeps the tokens those of the text read so far |
| LabelMatcher.StandsAloneIsRun | semantic_engine/path_discovery.py:214-235 | a pattern stands alone in a text iff it is one of its maximal word runs |
| LabelMatcher.LabelMatchesPattern | semantic_engine/query_executor/executor.py:536-565 | true iff the pattern is contained, when it has a qualifying character, or stands alone between non-word characters; the same in path_discovery.py |
| Snippets.SplitOfJoin | semantic_engine/query_executor/executor.py:900-928 | joining lines by newline and splitting again gives the lines back |
| Snippets.ParseOfRender | app/services/scan_service.py:368-385 | the gutter parser recovers the number of every rendered line, marked or not, whatever its text |
| Snippets.GutterIsFound | app/services/scan_service.py:380-384 | a line the parser reads a number off begins with a mark or none, space, digits, space and a bar, and the number is that of the digits |
| Snippets.GutterIsRead | app/services/scan_service.py:380-384 | and off every such line it reads that number |
| Snippets.FallbackMeaning | app/services/scan_service.py:385 | the fallback is the end line, else the start line, else 0, a recorded 0 counting as none |
| Snippets.ExtractCodeSnippet | semantic_engine/query_executor/executor.py:900-928 | the snippet is the rendering of the clipped window around the requested lines, empty when none is requested |
| Snippets.SnippetRoundTrip | semantic_engine/query_executor/executor.py:900-928 | splitting the snippet gives a contiguous in-bounds window covering every requested line, each line parsing back to its number |
| Snippets.ExtractSinkLine | app/services/scan_service.py:368-385 | the number of the first numbered line holding the sink, and the location's line otherwise |
| Snippets.LineSearchIff | app/services/scan_service.py:368-385 | on line n, searching the printed line finds the source's occurrences of the sink and no others iff the sink neither occurs in the gutter nor begins with a tail of it |
| Snippets.SinkLineOfSnippet | app/services/scan_service.py:368-385 | where the window's gutters are clear of the sink, the parser stops exactly at the first source line of the window holding it and reads off its number |
| Snippets.SinkSearchIff | app/services/scan_service.py:368-385 | for each number of context lines, that holds on every snippet printed with them iff no gutter they can show can be taken for the sink, or the sink holds a line break |
| Snippets.MisreadSnippet | app/services/scan_service.py:368-385 | for each number of context lines and each sink not clear of a gutter they can show, a snippet printed with them in which the search stops at a line, though no line of the source holds the sink |
| Snippets.MisreadAnswer | app/services/scan_service.py:368-385 | on that snippet the search answers a line it shows, whatever the finding's own line |
| Snippets.WordsAreProof | app/services/scan_service.py:368-385 | a sink with a non-gutter character and no space before it is safe with any context |
| Snippets.NumbersAreUnsafe | app/services/scan_service.py:368-385 | the digits of any line number are an unsafe sink with any context |
| PathScore.CrossingsBound | semantic_engine/path_discovery.py:373-387 | a path of L nodes has at most 2(L-1) boundary crossings |
| PathScore.StepCrossings | semantic_engine/path_discovery.py:373-387 | a step crosses one boundary for a change of file and one for a change between named scopes; unknown nodes are passed over |
| PathScore.ScoreBound | semantic_engine/path_discovery.py:335-451 | every path of two or more nodes scores at most 0.5025, so is never "high" or "critical" |
| PathScore.HighestIsReached | semantic_engine/path_discovery.py:335-451 | some path reaches 0.5025: the bound is tight |
| PathScore.ScoreFormula | semantic_engine/path_discovery.py:346-361 | the score in closed form |
| PathScore.DiscoveredSeverity | semantic_engine/path_discovery.py:444-451 | a discovered path is medium from 0.45 on and low below |
| PathScore.SeverityBands | semantic_engine/path_discovery.py:444-451 | the thresholds of the four severities |
| PathScore.LocalPathKeptIff | semantic_engine/path_discovery.py:78-85 | at threshold 0.35 a path crossing no boundary is kept iff it has two nodes and no sanitizer hit |
| PathScore.CutKeepsBest | semantic_engine/path_discovery.py:84-85 | the top-k cut drops only candidates scoring no higher than any kept, and only when k are kept; a negative k drops that many |
| EvidenceMerge.BasisAgrees | app/services/asvs_service.py:667-698 | for every strategy, a pass basis comes exactly with a pass, a fail basis exactly with a fail or a review |
| EvidenceMerge.StaticMeaning | app/services/asvs_service.py:1156-1330 | without a capability finding a static control fails iff a vulnerable match is confirmed by the model or a live re-test, goes to review iff there are vulnerable matches and none is, passes iff all matches are compliant or, by absence, nothing matched in swept code with a rule that looks for violations |
| EvidenceMerge.FirstDecides | app/services/asvs_service.py:1163-1185 | the first capability finding or probe result for a control is its verdict |
| EvidenceMerge.UnprobedIsUntested | app/services/asvs_service.py:1437-1447 | a probed control without a probe result is not tested |
| EvidenceMerge.ConfigMeaning | app/services/asvs_service.py:700-804 | when a configuration control fails, passes and stays untested, for V3.5.8, for V3.4.1 and V13.4.6, and for the rest |
| EvidenceMerge.DependencyMeaning | app/services/asvs_service.py:1369-1435 | V15.2.1 takes over the dependency verdict, no other control has one |
| EvidenceMerge.ManualFailsIff | app/services/asvs_service.py:806-976 | an attested control fails iff somebody answered fail or the evidence it listens to holds a decisive finding |
| EvidenceMerge.ManualOtherwise | app/services/asvs_service.py:1045-1083 | any other outcome is the stored answer, or not tested |
| EvidenceMerge.MoreFindingsRaise | app/services/asvs_service.py:749-1367 | for the merges where findings accumulate, more findings never lower the verdict |
| EvidenceMerge.NeverLoweredIff | app/services/asvs_service.py:700-1460 | for every strategy, the guards on a summary under which no added finding can lower its verdict |
| EvidenceMerge.CompliantLowersIff | app/services/asvs_service.py:700-745 | additions lower V3.5.8 iff they bring its first pass on top of a failure |
| EvidenceMerge.CapabilityLowersIff | app/services/asvs_service.py:1156-1330 | additions lower a static verdict iff the first capability finding then ranks below it |
| EvidenceMerge.ManualMeaning | app/services/asvs_service.py:806-976 | the five attestation merges: a decisive finding fails the control, otherwise the stored answer stands |
| EvidenceMerge.OnlyTheSetMattersIff | app/services/asvs_service.py:667-1460 | order and repetition are irrelevant iff, where the first finding decides, the control's findings agree |
| EvidenceMerge.ManualPassIff | app/services/asvs_service.py:806-976 | a manually attested control passes iff a human answered pass and nothing overrules it |
| EvidenceMerge.FindingsOnlyFailManual | app/services/asvs_service.py:806-976 | added findings leave a manually attested control alone or fail it |
| ScanTotals.SummarizeStaticFindings | app/services/scan_service.py:58-67 | each severity's entry is its number of non-compliant findings, and the entries sum to the findings counted |
| ScanTotals.EntryCounts | app/services/scan_service.py:2284-2561 | each severity's entry is its number of non-compliant static findings, failing probes and failing live findings; only the four usual severities have an entry of 0 |
| ScanTotals.LiveEntryCounts | app/services/scan_service.py:2038-2057 | the same for a live scan |
| ScanTotals.PassingNeverCounts | app/services/scan_service.py:2038-2045 | live findings that do not fail change no count |
| ScanTotals.CompliantNeverCounts | app/services/scan_service.py:58-67 | compliant evidence changes no count |
| ScanTotals.DynamicTotals | app/services/scan_service.py:2038-2057 | the same for failing live and probe findings of a live scan |
| ScanTotals.RepositoryTotals | app/services/scan_service.py:2284-2561 | in a repository scan, with or without live engines, severity entries sum to `vulnerabilities_found` |
| ScanTotals.BridgeVerdicts | app/services/scan_service.py:2506-2513 | an id has an entry iff a failing re-test of it ranks zero or more, and the entry is a top-ranked failing verdict for it |
| ScanTotals.MarkFindings | app/services/scan_service.py:2483-2546 | every finding gets exactly the marks the live results call for, in place |
| ScanTotals.MarksAgree | app/services/scan_service.py:2514-2546 | never both reproduced and contradicted; bridge-confirmed implies live-confirmed and carries a verdict |
| ScanTotals.FailuresConfirmIff | app/services/scan_service.py:2506-2518 | every failing re-test confirms its finding iff no failing verdict has a negative rank |
| ScanTotals.LinkedById | app/services/scan_service.py:2506-2546 | a finding with an id is bridge-confirmed iff a failing live finding that names it ranks zero or more, and contradicted iff it is not and a passing one names it |
| ScanTotals.EmptyIdIsUnlinked | app/services/scan_service.py:2506-2546 | a finding without an id, or with an empty one, is marked through shared controls only |
| ScanTotals.LoweredMeaning | app/services/scan_service.py:2538-2546 | contradiction halves a confidence to the nearest thousandth, an unreadable one counting as 0.6 |
| ScanTotals.Lowered | app/services/scan_service.py:2538-2546 | contradiction strictly lowers a positive confidence and keeps it non-negative |
| Compliance.GroupByChapter | app/services/asvs_service.py:1469-1471 | every control filed under its chapter, in catalog order, no empty chapter |
| Compliance.CountVerdicts | app/services/asvs_service.py:1475-1478 | each verdict's entry is its number of controls |
| Compliance.ChapterEntry | app/services/asvs_service.py:1474-1487 | the counts sum to the chapter's control count; the strategy is the common one, or "mixed" when two differ |
| Compliance.EntryMeans | app/services/asvs_service.py:1474-1487 | a chapter's entry for a verdict is its number of controls recorded with it, unrecorded ones counting as not tested; the five usual verdicts always have an entry |
| Compliance.SummaryConserves | app/services/asvs_service.py:1473-1487 | chapter sizes sum to the catalog, and each verdict's counts sum to the controls that got it |
| Compliance.GetComplianceSummary | app/services/asvs_service.py:1465-1520 | every chapter once in numerical order, each entry describing its controls; level figures over the applicable controls |
| Compliance.SummaryAgrees | app/services/asvs_service.py:1465-1513 | chapter totals equal the catalog size, the chapters' passes equal the overall passes, levels are nested |
| Compliance.LevelsMeaning | app/services/asvs_service.py:516-517 | a target takes in exactly the controls of its own and lower levels; unknown levels belong to none and take none |
| Compliance.TargetsNest | app/services/asvs_service.py:516-517 | a lower target's controls and passes are among a higher target's |
| Compliance.Pct | app/services/asvs_service.py:1489-1511 | the percentage lies in 0..100 within half a point of the exact share |
| Compliance.FullMarksIff | app/services/asvs_service.py:1489-1511 | 100 is shown iff at most one control in two hundred does not pass |
| PortfolioTrend.NewestMeaning | app/services/asvs_service.py:1691-1694 | the carried-forward event is the one with the greatest stamp up to the day, the later listed on ties |
| PortfolioTrend.NewestSurvivesSort | app/services/asvs_service.py:1683-1690 | sorting by time changes no repository's newest event |
| PortfolioTrend.OrderIsIrrelevant | app/services/asvs_service.py:1691-1703 | summing the last-known dictionary in its own order equals summing over the repositories |
| PortfolioTrend.FileByDay | app/services/asvs_service.py:1691-1703 | the loop files, per day in ascending order, the mean known by that day's end and the day's newest stamp |
| PortfolioTrend.Trend | app/services/asvs_service.py:1683-1703 | one point per day with an event, ascending, each the rounded mean of every repository's own latest percentage by that day's end |
| PortfolioSlices.Portfolio | app/services/asvs_service.py:1586-1703 | the same over the recent slices the dashboard takes from the stored scans, negative lengths included, whatever order the repositories are put in |
| PortfolioSlices.ListingIsIrrelevant | app/services/asvs_service.py:1667-1703 | a trend over the repositories sorted by compliance is one over them as listed |
| PortfolioSlices.FullHistoryIff | app/services/asvs_service.py:1586-1613 | a day takes in the percentages it would over full histories iff every repository's slice reaches back to it or its history began later |
| PortfolioSlices.PointIff | app/services/asvs_service.py:1586-1703 | with the stamps fixed, a day's rounded mean is the one over full histories for all percentages in 0..100 iff every slice reaches the day |
| PortfolioSlices.MissedPoint | app/services/asvs_service.py:1586-1703 | where some slice does not reach, percentages in 0..100 at which the mean is off |
| PortfolioSlices.CutShortPoint | app/services/asvs_service.py:1586-1703 | two repositories and slices of one scan: every trend shows day 1 at 100, every full one at 50 |
| Sorting.SortHead | app/domain/analysis/cfg_dfg_extractor.py:306-313 | the head of a stable sort is the first least element |
| Tallies.TalliedTotal | app/services/scan_service.py:60-67 | counts over keys that miss nothing sum to how much was counted |
| Rounding.RoundUnique | app/services/asvs_service.py:1496 | nearest, ties to even, determines the rounded integer |

## Left out

- HopCompleteness.CallIsComplete: on a single graph whose file map is not harmless, completeness is stated under the
  settled-last-file condition, which is sufficient there; the exact condition is over all graphs on a file map.
- QueryBfs, HopBfs, Clustering and Classifier return `drained`, `taken`, `groups`, `ledger` and `workers` beside the
  original results: observations of the run, used only by the contracts.
- ScopeClimb.IsVisibleScope: requires that the climb asked for does not loop, because the original then never returns.
- ReachingDefs.EdgeIff: a definition whose id is the empty string emits no edge, as in the code.
- ProviderPool.CallIsFair: provider names hold no colon, so that ids start with their provider's name. The class comment
  promises one delayed retry on a rate limit; the code has none, and the model follows the code.
- PoolInterleaving.GivesUpIff: a reset while a call waits is excluded; the program resets only pools that serve one call
  at a time. Throttling is left out: a request may be sent after its provider was exhausted, as in the code.
- Classifier.ClassifySlices: exceptions escaping a worker and logging are not modelled; a negative budget slices from the
  end, as in the code, so the attempt bound is stated for budgets of at least 0.
- ScanTotals.BridgeVerdicts: the rank map and the failing verdicts are parameters; a verdict name is never empty.
- PortfolioSlices.Portfolio: requires repository ids to be distinct, as the dictionary's keys are, and scans newest first,
  as the query sorts them; time stamps are datetimes after the first day of year 1, or absent.
- EvidenceMerge: free text, evidence lists and confidences of the results; only the verdict and its bases are kept.
- PathScore.ScoreBound: sanitizer hits and the auth gap's inputs are free, not computed from node labels and edges.
- RateLimiter: client address resolution and the HTTP response.
- `_normalize_sink`, the vulnerability type grouping, rule lookup and every pattern regex are parameters or already applied;
  file paths are normalised, severities and confidences lower-cased.
- Snippets.SinkSearchIff: the sink "regex" is never searched for, so the statement there is about the search it skips.
- LabelMatcher: the set of alphanumeric characters is a parameter; Snippets takes `\s` and `\d` as ASCII.
- Floating point: scores, confidences and percentages are reals; `round` is round half to even on the exact value.
- Python's recursion limit in the depth-first search.
- `_filter_discovery_slices`, `_deduplicate_slices`, `_compute_cvss_score`, rule attribution and the per-chapter portfolio
  sums: they would add only easy members.
- Routes, storage, HTTP, LLM and DAST calls, report rendering, the CFG builder and scan progress.
