# ecowcdb, modelled in Dafny

ecowcdb computes worst-case delay bounds for FIFO networks. It cuts a network
into a forest of edges, builds a linear program for each forest and asks the
external solver `lp_solve` for its optimum. This project models the logic
around that solver:

- which forests are generated (exhaustive, sampled, rotated on a ring);
- the heuristic that builds one good forest;
- the two retry state machines that rescale the network or extend the
  timeout when the solver fails;
- the classifier of the solver's textual output;
- the exhaustive searches and the symmetric-cycle shortcut;
- the input validators;
- the topology generators (tandem, ring, mesh, custom);
- the statistics helpers and the display-unit tables.

The solver is an oracle: a function from the call number and the query to
either a delay or an `LPErrorType`. Wall-clock times are inputs too. Delays
are `ExtReal = Fin(real) | Inf`, with `Inf` greater than every finite value.

Modules, one per file:

| file | module | models |
|---|---|---|
| wrappers.dfy | Wrappers | `Option`, `Result`, `Outcome` |
| sorting.dfy | Sorting | extended reals and Python's stable `sorted(key=...)` |
| seqs.dfy | Seqs | subsequences, duplicates, counting helpers |
| descriptors.dfy | Descriptors | panco's `Server`, `Flow`, `Network` records, edges and forests |
| options.dfy | Options | the option enums the code branches on |
| errors.dfy | LPErrors | `LPErrorType`, `LPError`, `check_LP_error` |
| graph.dfy | Graph | `is_forest` |
| forests.dfy | ForestGen | `__all_forests`, `__subset_forests`, `generate_forests` |
| symmetry.dfy | Symmetry | `generate_symmetric_forests` |
| scaling.dfy | Scaling | `scale_network` |
| heuristic.dfy | Heuristic | `flow_preserving_min_depth_max_forest` and its helpers |
| validation.dfy | Validation | the `Validation.*` checks |
| retry.dfy | AnalysisDelay | `Analysis.__compute_timeout` and `Analysis.delay` |
| search.dfy | Search | `exhaustive_search`, the symmetric-cycle search and copy, `exhaustive_search_all_flows` |
| ecowcdb.dfy | Ecowcdb | `ECOWCDB.__delay` and the three `min_cut_*` methods |
| topologies.dfy | Topologies | `Networks._generic`, `custom`, `Tandem.*`, `Ring.*`, `Mesh.simple` |
| stats.dfy | Stats | `__filter_inf`, the correlation inputs, `__forest_ranking`, `*forest_ranking` |
| units.dfy | Units | `__unit_str`, `__unit_factor`, `generate_header`, `convert_result_units` |

Where a docstring and the code disagree, the model follows the code:

- `Ring.full` is documented as having flows of length N-1. The code builds
  flows of length N (networks.py:338-340).
- `Ring.semi` is documented with length N//2. The code uses N//2+1
  (networks.py:364-366).
- `complete_full` is documented with lengths 0 to N-1. The code builds, from
  each server, lengths N down to 1 (networks.py:391-394).
- The timeout of an all-flows solve is documented as capped by the user's
  timeout. The code multiplies it by the number of flows after the cap test,
  so it can exceed the cap (analysis.py:163-166; `AnalysisDelay.AllDelaysExceedsHard`).

## Model

| member | source | states |
|---|---|---|
| Sorting.SortBy | ecowcdb/analysis.py:335 | `sorted(key=...)` returns a permutation of its input, non-decreasing by the key, and stable: for every key the elements with that key keep their order |
| Sorting.SortBySorted | ecowcdb/analysis.py:335 | sorting an already sorted list leaves it unchanged |
| Sorting.SortByHead | ecowcdb/util/network.py:294-295 | the head of the sorted list is the first element of least key |
| LPErrors.FromValue | ecowcdb/util/errors.py:24-30 | `LPErrorType(v)` exists exactly for v in 0..6, and the member found has value v |
| LPErrors.ValueBijection | ecowcdb/util/errors.py:24-30 | the seven members have the distinct values 0..6, and each value reads back as its member |
| LPErrors.LPError.ErrorType | ecowcdb/util/errors.py:64-71 | `error_type()` returns exactly the type the error was built with |
| LPErrors.ToStringInjective | ecowcdb/util/errors.py:55-62 | `str(error)` is `'LPError: '` plus the type's name, and different types print differently |
| LPErrors.SplitJoin | ecowcdb/util/errors.py:84 | `s.split('\n')` loses nothing: joining the pieces gives `s` back, with one more piece than line breaks |
| LPErrors.FirstMatchRules | ecowcdb/util/errors.py:87-98 | the six failure tests run in source order and the first match decides the error type |
| LPErrors.CheckLPError | ecowcdb/util/errors.py:84-103 | the classifier raises the first matching failure; otherwise it returns normally iff the second line starts with `Value of objective function:`, and raises `UnhandledLPError` if not |
| LPErrors.CheckPassIff | ecowcdb/util/errors.py:87-102 | the classifier returns normally iff no failure line matches and the second line reports the objective value |
| LPErrors.AccuracyFirst | ecowcdb/util/errors.py:87-92 | an `Accuracy error` on the second-to-last line wins even over an infeasible first line |
| Graph.Next | ecowcdb/util/network.py:126 | the successor found is the destination of an edge from that server, and none is found iff the server has no outgoing edge |
| Graph.OutDegreeUnique | ecowcdb/util/network.py:124-127 | "every server has at most one successor" equals "no two edges share a source with different destinations" |
| Graph.IsForestIff | ecowcdb/util/network.py:124-137 | `is_forest` holds iff every server has at most one successor and no cycle exists; connectivity is not required |
| Graph.LongWalkHasCycle | ecowcdb/util/network.py:129-134 | a walk of N steps that never stops repeats a server, so the graph has a cycle |
| Graph.SmallForests | ecowcdb/util/network.py:124-137 | the empty forest is valid; a single edge is valid iff it is not a self-loop |
| ForestGen.CombinationsCount | ecowcdb/util/network.py:40 | `combinations(s, k)` has `comb(len(s), k)` members |
| ForestGen.CombinationsMembers | ecowcdb/util/network.py:40 | the combinations of size k are exactly the subsequences of length k |
| ForestGen.CombinationsNoDups | ecowcdb/util/network.py:40 | over distinct edges no combination appears twice |
| ForestGen.AllForests | ecowcdb/util/network.py:38-42 | the enumerated forests come in non-decreasing size |
| ForestGen.AllForestsExact | ecowcdb/util/network.py:38-42 | `__all_forests` holds exactly the valid forests that are selections of the edges with at least `min_edges` edges, without duplicates |
| ForestGen.AllForestsEnds | ecowcdb/util/network.py:38-42 | with `min_edges` 0 the empty forest is enumerated, and the full edge list is enumerated iff it is itself a forest |
| ForestGen.SumChooseAll | ecowcdb/util/network.py:48 | the sum of `comb(m, i)` over all i is `2**m` |
| ForestGen.NumCutsExamined | ecowcdb/util/network.py:47-50 | the progress total `num_cuts` equals the number of combinations the loop examines |
| ForestGen.SampleLoopFacts | ecowcdb/util/network.py:78-92 | the sampling loop only appends new valid forests, each a candidate sample sorted by source, in sampling order; it stops at `num_forests`; it raises only after more than 10^4 consecutive candidates were rejected against the forests chosen so far |
| ForestGen.SampleLoopFromCandidates | ecowcdb/util/network.py:80-86 | the appended forests are a subsequence of the source-sorted candidate samples: each is one of them, taken in the order sampled |
| ForestGen.SampleLoopStreak | ecowcdb/util/network.py:81-92 | a `ValueError` means a run of candidates, more than 10^4 long counting earlier failures, was rejected in a row while fewer than `num_forests` forests were chosen |
| ForestGen.RejectionsRaise | ecowcdb/util/network.py:89-92 | 10^4 + 1 consecutive rejections raise the `ValueError` |
| ForestGen.SubsetForests | ecowcdb/util/network.py:94-107 | `num_forests == 0` gives `[]`; otherwise the sampled list `[[]]` plus accepted source-sorted candidates (in sampling order) is stably sorted by size: a permutation of it, sorted by size, with each size's forests in sampled order; exactly `num_forests` forests, the empty one among them, no duplicates, all valid; a `ValueError` only after more than 10^4 consecutive rejections |
| ForestGen.GenerateForests | ecowcdb/util/network.py:159-167 | `Empty` gives no forests, `Partial` the sampled ones, `All` exactly the valid selections |
| Symmetry.RotateCompose | ecowcdb/util/network.py:185 | rotating by a and then by b is rotating by a + b |
| Symmetry.RotSetPeriodic | ecowcdb/util/network.py:182-185 | rotations of an in-range forest repeat with period N |
| Symmetry.RotationRoundTrip | ecowcdb/util/network.py:185 | rotating by i and then by N - i gives the forest back |
| Symmetry.SymmetricSetsShape | ecowcdb/util/network.py:181-189 | the orientations start with the forest itself, the k-th is the forest turned k places, they are pairwise distinct, at most N, and the loop stops only at a repeat |
| Symmetry.SymmetricPeriod | ecowcdb/util/network.py:181-189 | the number of orientations is the forest's rotational period |
| Symmetry.SortedListFacts | ecowcdb/util/network.py:191 | each orientation is listed with every edge once, sorted by source |
| Symmetry.SymmetricForests | ecowcdb/util/network.py:169-191 | `generate_symmetric_forests` returns one source-sorted list per distinct orientation, in order |
| Scaling.ScaleNetwork | ecowcdb/util/network.py:205-226 | server and flow counts, paths and latencies are kept; rates, `sigma` and `rho` are multiplied by the factor |
| Scaling.ScaleByOne | ecowcdb/util/network.py:206-207 | the 1.0 shortcut returns what the copy would have been |
| Scaling.ScaleCompose | ecowcdb/util/network.py:209-226 | scaling by a and then b is scaling by a * b |
| Scaling.ScaleRoundTrip | ecowcdb/util/network.py:209-226 | scaling by a non-zero factor and then by its inverse gives the network back |
| Heuristic.PathToEdges | ecowcdb/util/network.py:238-241 | `__path_to_edges` gives len(path) - 1 consecutive pairs |
| Heuristic.PathEdgesRoundTrip | ecowcdb/util/network.py:238-241 | the path is recovered from its first server and its edges |
| Heuristic.InNeighboursMembers | ecowcdb/util/network.py:254-256 | u is among the in-neighbours of v iff (u, v) is an edge |
| Heuristic.ReverseAdjListSpec | ecowcdb/util/network.py:254-257 | the reverse adjacency list is built iff every destination is below N, and lists the sources into each server in edge order |
| Heuristic.PopOrder | ecowcdb/util/network.py:294-295 | each iteration pops the shallowest frontier entry, the earliest queued among equals |
| Heuristic.MinDepthMaxForest | ecowcdb/util/network.py:275-306 | the heuristic's result is sorted by source |
| Heuristic.HeuristicIsForest | ecowcdb/util/network.py:282-306 | on a path without repeated servers the result is a valid forest: one successor per server, no cycle, every edge between servers below N |
| Heuristic.HeuristicDepthBound | ecowcdb/util/network.py:286-304 | with a non-negative `max_depth` no walk along the result is longer than `max_depth` edges |
| Heuristic.HeuristicKeepsFlow | ecowcdb/util/network.py:282-306 | every kept edge is a path edge or a network edge, and with a negative `max_depth` every edge of the flow's path is kept |
| Heuristic.HeuristicErrors | ecowcdb/util/network.py:254-296 | a destination at or beyond N fails first, then a path shorter than two servers; a success visited every path server; with every server below N there is no error |
| Validation.NonNegative | ecowcdb/util/validation.py:76-77 | rejects iff the argument is negative |
| Validation.Positive | ecowcdb/util/validation.py:90-91 | rejects iff the argument is not strictly positive |
| Validation.UpperBound | ecowcdb/util/validation.py:105-106 | rejects iff the argument exceeds the bound; the bound itself passes |
| Validation.Equal | ecowcdb/util/validation.py:120-121 | rejects iff the argument differs from the expected value |
| Validation.ExistsIn | ecowcdb/util/validation.py:135-136 | rejects iff the key is missing from the dictionary |
| Validation.CheckAll | ecowcdb/util/validation.py:368-404 | a loop of checks passes iff every item passes, and otherwise reports the first failing item |
| Validation.ConstructorArguments | ecowcdb/util/validation.py:190-193 | accepts iff `num_forests >= 0`, `0 <= min_edges <= len(edges)` and `timeout > 0`, reporting the first broken rule |
| Validation.Callable | ecowcdb/util/validation.py:208-210 | rejects iff the forest generation mode is `Empty` |
| Validation.AnalysisFoi | ecowcdb/util/validation.py:220-222 | accepts iff `0 <= foi <= num_flows - 1` |
| Validation.AnalysisForest | ecowcdb/util/validation.py:236-240 | unknown edges are reported before the forest test; accepts iff all edges are known and they form a forest |
| Validation.AnalysisForestIff | ecowcdb/util/validation.py:236-240 | on an in-range network the forest check accepts iff the edges are known, successors are unique and there is no cycle |
| Validation.AnalysisNet | ecowcdb/util/validation.py:262-263 | rejects iff the loaded network differs from the analysed one |
| Validation.StatsFoi | ecowcdb/util/validation.py:304-306 | accepts iff `foi >= 0` and foi is a key of the results |
| Validation.GenericArguments | ecowcdb/util/validation.py:342-353 | type checks come first; then accepts iff R > 0, L >= 0, S >= 0, N > 0 and 0 < load <= 1 |
| Validation.CurveArguments | ecowcdb/util/validation.py:373-378 | a curve argument passes iff it is a 2-tuple of non-negative floats |
| Validation.ServerArguments | ecowcdb/util/validation.py:369-386 | a server argument passes iff it is a pair of valid curve lists |
| Validation.FlowArguments | ecowcdb/util/validation.py:390-404 | a flow argument passes iff it is a pair of a valid curve list and a list of server ids within the bound |
| Validation.CustomWithBound | ecowcdb/util/validation.py:367-404 | the custom-network check passes iff every server argument and every flow argument is valid |
| Validation.CustomAcceptsMissingServer | ecowcdb/util/validation.py:404 | as written, one server and the path `[1]` pass validation, though server 1 does not exist |
| Validation.CustomFixedInRange | ecowcdb/util/validation.py:401-404 | with the corrected bound every server id names an existing server |
| Validation.CustomFixedStricter | ecowcdb/util/validation.py:404 | the corrected check accepts nothing that the one as written rejects |
| AnalysisDelay.Ceil | ecowcdb/analysis.py:162 | `ceil(x)` is the least integer at or above x |
| AnalysisDelay.ComputeTimeout | ecowcdb/analysis.py:159-167 | before any analysis the hard timeout is used; in single-flow mode the timeout never exceeds it |
| AnalysisDelay.TimeoutMonotone | ecowcdb/analysis.py:161-167 | a larger factor never gives a shorter single-flow timeout, and the hard timeout is used once the average times the factor exceeds it |
| AnalysisDelay.AllDelaysExceedsHard | ecowcdb/analysis.py:163-166 | the all-flows timeout is not re-capped: hard 10, average 3, two flows give 12 |
| AnalysisDelay.ZeroAverageStalls | ecowcdb/analysis.py:159-229 | with a zero average runtime the timeout is 0, so a suboptimal solution doubles the factor instead of giving up |
| AnalysisDelay.Decide | ecowcdb/analysis.py:207-235 | success returns the answer unchanged; a scale error rescales unless at the last scale; a suboptimal solution doubles unless at the hard timeout; infeasible, unbounded and unhandled give up |
| AnalysisDelay.DoublingShrinksRoom | ecowcdb/analysis.py:222-229 | doubling happens only below the cap and brings the timeout closer to it |
| AnalysisDelay.LoopFacts | ecowcdb/analysis.py:198-235 | each call is made in the state it records; consecutive calls differ by one rescale or one doubling; the loop stops exactly at the first success or give-up |
| AnalysisDelay.LoopRetriesOnlyOnErrors | ecowcdb/analysis.py:211-233 | every call but the last failed with an error that allows a retry |
| AnalysisDelay.FactorGrows | ecowcdb/analysis.py:213-229 | the timeout factor and the scale index never decrease along a run |
| AnalysisDelay.Delay | ecowcdb/analysis.py:198-241 | `delay` restarts at scale index 0, makes at most 3 + room calls, only grows the factor, and its last call decides the answer |
| AnalysisDelay.DelayFirstSuccess | ecowcdb/analysis.py:207-210 | a successful first call returns the solver's answer unchanged, with no inverse scaling |
| AnalysisDelay.ScaleErrorsGiveUp | ecowcdb/analysis.py:213-221 | scale errors on every call give up after the three scale factors 1.0, 0.1 and 10.0, in order |
| AnalysisDelay.FirstSuboptimalGivesUp | ecowcdb/analysis.py:159-226 | before any analysis a suboptimal solution gives up at once |
| AnalysisDelay.DelayAnswer | ecowcdb/analysis.py:207-241 | the answer is the last call's answer, or a scalar `inf` after a give-up, even in all-flows mode |
| Search.PublicDelay | ecowcdb/analysis.py:190-192 | user calls succeed iff foi is a flow index and the forest is a valid forest of known edges |
| Search.FlowSearch | ecowcdb/analysis.py:316-335 | one entry per forest is stored for foi, other flows are untouched, and the runtime totals are zero afterwards |
| Search.FlowSearchFacts | ecowcdb/analysis.py:324-335 | the entries follow generator order and are stored stably sorted by delay |
| Search.PairOrder | ecowcdb/analysis.py:283 | delay k belongs to the orientation turned back k places |
| Search.SliceAsWritten | ecowcdb/analysis.py:279-282 | as written, slicing the scalar `inf` of a give-up raises |
| Search.SliceFixed | ecowcdb/analysis.py:279-282 | corrected: a give-up yields `inf` for every flow |
| Search.CycleStep | ecowcdb/analysis.py:271-275 | a forest already covered by symmetry is struck off without a solver call |
| Search.CycleAnalyseCounts | ecowcdb/analysis.py:279-288 | an analysed forest costs one all-flows call, and `num_iters` grows by its number of orientations |
| Search.CycleAnalysePairs | ecowcdb/analysis.py:282-289 | delay k is recorded for the orientation turned back k places, and every recorded orientation but the forest is marked pre-computed |
| Search.ShiftForest | ecowcdb/analysis.py:253 | the shifted forest has the same size, is sorted by source, and is the forest rotated by foi |
| Search.SymmetricCopy | ecowcdb/analysis.py:249-254 | flows 1..N-1 get flow 0's results, rotated, with delays and times copied; other keys are untouched |
| Search.CopyRoundTrip | ecowcdb/analysis.py:253 | rotating a copied forest the rest of the way round gives flow 0's edges back |
| Search.SymmetricCycleWith | ecowcdb/analysis.py:256-294 | a completed symmetric search has results for every flow and zero runtime totals |
| Search.CycleGiveUpRaises | ecowcdb/analysis.py:279-284 | as written, a forest given up on in all-flows mode stops the search with `TypeError` |
| Search.CycleGiveUpFixed | ecowcdb/analysis.py:279-284 | corrected, the same search completes and records the forest with delay `inf` |
| Search.ExhaustiveSearch | ecowcdb/analysis.py:307-335 | the mode and foi are validated before the symmetric branch; a non-symmetric search stores one entry per forest, a symmetric one results for every flow; a non-validation failure comes from the symmetric branch, and as written it may be the `TypeError` of slicing a give-up |
| Search.ExhaustiveSearchAllFlows | ecowcdb/analysis.py:341-349 | fails iff the mode is `Empty` or the symmetric search (as written, or corrected) fails; as written that failure may be the `TypeError` of slicing a give-up; otherwise every flow has results |
| Search.CycleLoopFixAgrees | ecowcdb/analysis.py:266-289 | wherever the symmetric loop as written succeeds, the corrected loop gives the same result |
| Search.SearchFixAgrees | ecowcdb/analysis.py:307-349 | wherever the public searches as written succeed, the corrected ones return the same result |
| Search.SearchGiveUpRaises | ecowcdb/analysis.py:341-349 | as written, `exhaustive_search_all_flows` on a symmetric cycle whose one forest is infeasible raises `TypeError`; corrected, it completes |
| Ecowcdb.Scale | ecowcdb/ecowcdb.py:74-88 | starting from 1.0, after s multiplications by 0.1 the scale factor is 10^-s |
| Ecowcdb.Timeout | ecowcdb/ecowcdb.py:75-93 | starting from 1000, after t multiplications by 10 the timeout is 1000 * 10^t |
| Ecowcdb.ScaleGivesUp | ecowcdb/ecowcdb.py:83-88 | the test `scale_factor < 10**-2` holds exactly from the fourth scale, 0.001, on |
| Ecowcdb.TimeoutGivesUp | ecowcdb/ecowcdb.py:89-93 | the test `timeout > 10**6` holds exactly from the fifth timeout, 10^7, on |
| Ecowcdb.React | ecowcdb/ecowcdb.py:82-98 | rescale iff a scale error at scale >= 0.01; extend iff a suboptimal solution at timeout <= 10^6; give up otherwise |
| Ecowcdb.Retry | ecowcdb/ecowcdb.py:76-98 | after s rescalings and t extensions at most 8 - s - t more calls are made |
| Ecowcdb.Delay | ecowcdb/ecowcdb.py:74-98 | `__delay` makes between one and eight solver calls |
| Ecowcdb.DelayRun | ecowcdb/ecowcdb.py:74-98 | the first call uses scale 1.0 and timeout 1000; each retry follows a failure and divides the scale or multiplies the timeout by ten; the last call decides the delay |
| Ecowcdb.StepsMonotone | ecowcdb/ecowcdb.py:83-93 | along a run the scale never grows and the timeout never shrinks |
| Ecowcdb.FirstAnswer | ecowcdb/ecowcdb.py:80-81 | a first answer is returned unchanged after one call |
| Ecowcdb.FatalGivesUp | ecowcdb/ecowcdb.py:94-96 | an infeasible, unbounded or unhandled failure gives `inf` after one call |
| Ecowcdb.AlwaysInaccurate | ecowcdb/ecowcdb.py:83-88 | constant scale errors are tried at scales 1, 0.1, 0.01 and 0.001, then `inf` |
| Ecowcdb.AlwaysSuboptimal | ecowcdb/ecowcdb.py:89-93 | constant suboptimal solutions are tried with timeouts 10^3 to 10^7, then `inf` |
| Ecowcdb.EightCalls | ecowcdb/ecowcdb.py:76-98 | the bound of eight calls is reached |
| Ecowcdb.MinCut | ecowcdb/ecowcdb.py:140-148 | the foi validator's verdict is reported first, then, for the depth-restricted variants, the `max_depth` validator's; past both, `flows[foi]` fails iff foi is no flow index; on success the forest is built from foi's path and one `__delay` runs on it, and the runtime is `end - start` |
| Ecowcdb.MinCutIndexChecked | ecowcdb/ecowcdb.py:140-144 | with `Analysis.foi`'s bounds as the foi validator, success means foi is a flow index and `max_depth` passes, and `flows[foi]` never fails |
| Ecowcdb.MinCutRun | ecowcdb/ecowcdb.py:115-120 | a successful call asks the solver one to eight times about foi and the built forest |
| Topologies.Interval | ecowcdb/networks.py:174 | `list(range(lo, hi))` has hi - lo elements, the k-th being lo + k |
| Topologies.Generic | ecowcdb/networks.py:62-89 | N servers and one flow per path, paths kept as given |
| Topologies.GenericSymmetric | ecowcdb/networks.py:64-74 | in the symmetric variant every server and every flow has the same curves |
| Topologies.GenericAsymmetricFlow | ecowcdb/networks.py:75-79 | only the rates of the flows after the first change, multiplied by 0.8 |
| Topologies.GenericAsymmetricServer | ecowcdb/networks.py:80-86 | only the servers after the first change, their rates divided by 0.8 |
| Topologies.GenericWithinLoad | ecowcdb/networks.py:69 | if no server is crossed by more than `max_flows` paths, no server carries more than `load` times its rate |
| Topologies.Build | ecowcdb/networks.py:170-178 | a generator succeeds iff `generic_arguments` passes, and then builds N servers and at least one flow |
| Topologies.SinkTreeShape | ecowcdb/networks.py:172-176 | N flows; flow i is `[i..N-1]` and ends at the sink |
| Topologies.InterleavedShape | ecowcdb/networks.py:198-200 | N flows: `[0..N-1]`, then `[i-1, i]` for i in 1..N-1 |
| Topologies.SourceSinkShape | ecowcdb/networks.py:225-228 | 2N-1 flows: `[0..N-1]`, then `[0..i-1]` and `[i..N-1]` for each i in 1..N-1 |
| Topologies.RingPathShape | ecowcdb/networks.py:338-340 | a ring path starts at its server, stays on the ring and moves one server forward per hop |
| Topologies.RingFullVisitsAll | ecowcdb/networks.py:338-340 | every full-ring flow visits every server |
| Topologies.CompleteShape | ecowcdb/networks.py:391-394 | complete rings have N*H flows; the flows from server i form one block with lengths H, H-1, ..., 1 |
| Topologies.SinkTreeLoad | ecowcdb/networks.py:172-176 | every sink-tree server is crossed by at most N flows, the sink by exactly N |
| Topologies.InterleavedLoad | ecowcdb/networks.py:198-202 | every interleaved server is crossed by at most 3 flows, every inner one by exactly 3 |
| Topologies.SourceSinkLoad | ecowcdb/networks.py:225-230 | every source-sink server is crossed by exactly N flows |
| Topologies.CrossingBound | ecowcdb/networks.py:154-344 | for sink tree, interleaved, source-sink and full ring no server is crossed by more than `max_flows` flows |
| Topologies.BuildWithinLoad | ecowcdb/networks.py:62-70 | for those four generators no server carries more than `load` times its rate |
| Topologies.ChoicesShape | ecowcdb/networks.py:279 | `product` has 2^N row choices, position k in {2k, 2k+1} |
| Topologies.ChoicesComplete | ecowcdb/networks.py:279 | every row choice appears |
| Topologies.ChoicesDistinct | ecowcdb/networks.py:279 | no row choice appears twice |
| Topologies.Mesh | ecowcdb/networks.py:274-292 | argument errors first, then `NotImplementedError` unless symmetric; 2N+1 servers and 2^N flows |
| Topologies.MeshPathsExact | ecowcdb/networks.py:279 | the mesh flows are exactly the 2^N distinct paths taking one server per column and ending at server 2N |
| Topologies.Custom | ecowcdb/networks.py:109-128 | as written, `custom` succeeds iff `custom_network_arguments` passes and reports its error otherwise; one server per server argument, one flow per flow argument, every path id at most the number of servers |
| Topologies.CustomFixed | ecowcdb/networks.py:109-128 | with the corrected bound, `custom` succeeds iff the corrected validation passes, and then every path id names an existing server |
| Topologies.CustomFixedAgrees | ecowcdb/networks.py:109-128 | wherever the corrected builder succeeds, the one as written builds the same network |
| Topologies.CustomBuildsMissingServer | ecowcdb/networks.py:109-128 | as written, one server and a flow with path `[1]` build a network whose flow crosses a missing server; the corrected builder refuses it |
| Topologies.CustomRoundTrip | ecowcdb/networks.py:109-128 | every well-formed network is rebuilt exactly from its own argument lists, by the builder as written and by the corrected one |
| Stats.Zip | ecowcdb/stats.py:84 | `zip` pairs items up to the shorter length |
| Stats.KeepFiniteSpec | ecowcdb/stats.py:84-87 | the kept pairs are a subsequence of the input, all finite, as many as the input's finite pairs |
| Stats.FilterInf | ecowcdb/stats.py:82-89 | `__filter_inf` returns equally long lists without `inf`, exactly the finite pairs of the zipped input in order |
| Stats.CorrelationData | ecowcdb/stats.py:98-103 | the correlation inputs exist iff `Stats.foi` accepts foi |
| Stats.CorrelationDataSpec | ecowcdb/stats.py:100-103 | the two lists are equally long, free of `inf`, and come from the rows whose two cells are finite |
| Stats.IndexOf | ecowcdb/stats.py:151-152 | `list.index` finds the first occurrence, or none iff the forest is absent |
| Stats.ForestRanking | ecowcdb/stats.py:150-155 | fails iff the forest is absent; otherwise the index is its first position and top = (index+1)/len lies in (0, 1] |
| Stats.RankHeuristic | ecowcdb/stats.py:185-190 | foi is validated first, then `max_depth`; a ranking ranks the heuristic forest of foi's path |
| Stats.BestForestRanking | ecowcdb/stats.py:171-175 | the ranked forest is the heuristic forest with unlimited depth, and top lies in (0, 1] |
| Units.UnitOf | ecowcdb/util/units.py:27-37 | reading a label back gives a unit only if that unit prints as the label |
| Units.UnitStrRoundTrip | ecowcdb/util/units.py:27-37 | every unit's label reads back as that unit |
| Units.UnitStrInjective | ecowcdb/util/units.py:27-37 | no two units share a label |
| Units.UnitFactor | ecowcdb/util/units.py:55-65 | every factor is positive |
| Units.UnitFactorInverse | ecowcdb/util/units.py:55-65 | each factor is the inverse of the unit's length in seconds (10^-6, 10^-3, 1, 60, 3600) |
| Units.UnitFactorOrder | ecowcdb/util/units.py:55-65 | a shorter unit has a larger factor |
| Units.HeaderNamesUnits | ecowcdb/util/units.py:80 | the header's columns are `# of Edges`, `Edges Kept`, and delay and runtime titles whose parenthesised labels read back as the two units |
| Units.ConvertResultUnits | ecowcdb/util/units.py:99-105 | one row per result, in order; the first column is the edge count of the row's forest |
| Units.ConvertRoundTrip | ecowcdb/util/units.py:99-105 | multiplying the converted delays and runtimes by the unit lengths in seconds gives the results back |

## Left out

- The LP itself: writing `.lp` files and running `lp_solve` are replaced by the solver oracle.
- panco's `Network.edges`, `decomposition` and `dfs` are not part of this model. The edge list is an input, and the graph of a forest is the one its edges induce on the servers.
- Randomness in `__subset_forests`: `seed(0)`, `randint` and `sample` are replaced by a finite input stream of candidate samples. If the stream runs out, the result is an explicit `CandidatesExhausted` error.
- Floating point: scale factors, rates and unit factors are exact reals. Rounding is not modelled.
- Wall-clock time: elapsed times are inputs (`Search.Clock`, and `start`/`end` in `Ecowcdb.MinCut`).
- Printing, verbosity, progress bars, tables, and pickle save/load.
- `median` and `pearsonr` in the statistics. The model stops at the lists they are given.
- `Stats.ForestRanking`: the median-runtime comparison, and its division by a zero median, are not modelled.
- The float-to-string rendering of `convert_result_units`. The rows keep the numbers, and `Units.ConvertResultUnits` states the edge count and order; the numeric columns are covered by `Units.ConvertRoundTrip`.
- `heuristic_algorithm` and the tree variant of the heuristic are not part of this model. `Ecowcdb.MinCut` takes the forest builder as an input.
- `Validation.ECOWCDB` and `Validation.Stats.max_depth` are not part of this model. `Ecowcdb.MinCut` takes the foi check and the depth check as inputs, and `Stats.RankHeuristic` takes the depth check.
- Ecowcdb.MinCut: a negative foi that the foi validator accepts is reported as `FlowIndexError`. Python would index `flows` from the end and pass the negative foi to the solver, whose behaviour is not part of this model.
- panco's `Network.__eq__` is not part of this model. `Validation.AnalysisNet` compares networks as records. If panco keeps Python's default `__eq__`, the source compares by identity, and a structurally equal copy would be rejected.
- `quick_forest_ranking`: it calls the heuristic with a fifth argument the shown heuristic does not take.
- Python's `isinstance` checks on arguments the model already types (enums, networks, edges, strings, the verbosity list). Python's `bool` is an `int`, so `True` passes an `int` check; the model has no booleans among its `PyValue`s.
- The unreachable `raise ValueError` arms of the `match` statements and `except` clauses. The model's matches are exhaustive, so these arms have no counterpart.
- Heuristic.MinDepthMaxForest: the maximality of the forest and the minimality of its depths are not proved. Only validity, the depth bound, flow preservation and the error cases are.
- Symmetry.SymmetricForests: edges that share a source come out by destination. Python gives them in set-iteration order, which is unspecified.
- AnalysisDelay.Delay: it requires a positive average runtime once a forest has been analysed (`StatsOk`). With a zero average the source can loop forever on suboptimal solutions (`AnalysisDelay.ZeroAverageStalls`).
- Search.PublicDelay: it requires that the solver answers a single-flow query with a single delay (`ScalarWhenSingle`). That is a property of panco's `FifoLP.delay`.
- Search.FlowLoop: it requires `ScalarWhenSingle` too.
- Search.FlowSearch: it requires `ScalarWhenSingle` too.
- Search.FlowSearchFacts: it requires `ScalarWhenSingle` too.
- Search.AllFlowsLoop: it requires `ScalarWhenSingle` too.
- Search.ExhaustiveSearch: it requires `ScalarWhenSingle` too, because it may run the per-flow search.
- Search.ExhaustiveSearchAllFlows: it requires `ScalarWhenSingle` too, because it may run the per-flow search.
- Search.SearchFixAgrees: it requires `ScalarWhenSingle` too, because it compares the public searches.
- AnalysisDelay.DelayScalar: it requires `ScalarWhenSingle` too.
- LPErrors.CheckLPError: it requires a line break in the output. Without one, the source's `s_split[-2]` raises `IndexError`, which is not modelled.
- Topologies.CrossingBound: the crossing counts of `Ring.semi`, `complete_full`, `complete_semi` and `Mesh.simple` against their `max_flows` are not proved.

## Findings

| source | as written | input that shows it | evidently intended | confidence | as-written member | corrected member |
|---|---|---|---|---|---|---|
| ecowcdb/util/validation.py:404 | a server id may equal `len(servers_args)` | one server, and a flow with path `[1]`: validation passes, though server 1 does not exist | server ids below `len(servers_args)`, like `Analysis.foi` | high, not executed | Validation.CustomAcceptsMissingServer | Validation.CustomFixedInRange |
| ecowcdb/analysis.py:279-282 | after a give-up, `delay` returns the scalar `float('inf')`, and `delays[:len(symmetric_forests)]` slices it | a symmetric cycle whose only forest the solver reports infeasible: the slice raises `TypeError` | a forest given up on gets delay `inf` for every flow | high, not executed | Search.CycleGiveUpRaises | Search.CycleGiveUpFixed |
