# Verified model of the Azure SQL MCP server's core logic

The server advises on indexes, compares queries, runs SQL through a connection pool and an executor,
refuses some administrative SQL, redacts what it logs, and keeps an incident log and an artifact store.
This project models the parts of it that hold state or recursion of their own, and proves what they promise.

| area | files | in short |
|---|---|---|
| index review | IndexModel, IndexFindings, FindingsSafety, FindingsJustified, FindingsComplete, FindingsUnused, FindingsRules, FindingsRuled, IndexReview | consolidation and removal of existing indexes lose no coverage and no foreign-key support, overlook nothing, and follow rules spelled out in the fields of the indexes |
| index advice | IndexCandidates, IndexReconcile, IndexPlacement, IndexBounds, IndexOutcome, IndexReport, IndexAdvice, IndexNames | what the table covers once the merged, fitted and reconciled candidates are carried out, alone or with the review's findings, and exactly when that fails |
| preflight | Preflight, PreflightSoundness, PreflightCompleteness, PreflightVerdict, PreflightService | a depth-limited traversal of views that fails closed |
| connection pool | PoolModel, PoolSafety, PoolCirculation, PoolHistory, PoolLending, PoolBreaker, ConnectionPool | slot accounting, lending and the circuit breaker in every interleaving |
| executor | ExecutorOwnership, ExecutorSafety, ExecutorEvents, ExecutorLosses | who owns a connection, composed with the pool, and exactly when one is lost |
| admin policy | SqlLexis, SqlTokenizer, SqlLayout, DropDatabasePolicy, DropDatabasePrograms, DropDatabaseStatements, DropDatabaseSoundness, DropDatabaseCheck | tokenizer, printers and constant propagation |
| redaction | Redaction | a one-pass lexer that hides exactly the bodies |
| incident log | SlowCallMerge, SlowCallWatch, SlowCallLog, IncidentDayLog, IncidentWindows | watchdog against end of call, the byte cap of a day, sliding windows |
| artifact store | ArtifactStore | a bounded, expiring, least-recently-used store |
| order contract | OrderContract | what a prefix of sort keys guarantees |

Each area has functions on values that say what the code computes, lemmas about them, and methods or classes
that compute it the way the program does, with loops and fields updated in place, proved equal to the functions.
`Wrappers` holds the one type that all areas share.
`dafny verify dfyconfig.toml` checks everything.

## Reading the model

- Interleavings. A step of the pool, the executor or the watchdog is what runs between two awaits, or between two
  reads of shared state. Sections under the pool's lock await nothing, so they never suspend and belong to a step.
  A run is any sequence of steps that can be taken; times are arguments of the steps.
- Names in the index modules are case-folded, so equality is the program's comparison. `DistinctNames` on folded names
  leaves out tables of case-sensitive databases with two indexes whose names differ in case only.
- The preflight compares its keys as they are, without folding, and so does the model.
- Advice is carried out change by change: each one rebuilds its index from the catalogued definition
  (index_advisor.py:2214-2219), so of two changes of one index the later undoes the earlier (`IndexOutcome`).
  The review of existing indexes rebuilds in the same way, and neither side knows what the other rebuilds; a rebuild of
  an index that is gone changes nothing (`IndexReport`).
- Threads. A worker thread ends on its own. The task that awaits it, the caller and the cleanup task are tasks of the
  event loop; cancelling the cleanup task while it waits cancels the task it awaits, and neither ends the thread.
- `Alphabet` stands for the host language's character classes and upper-casing. `Standard` lists the few facts the
  proofs use, all true of Unicode.
- `Stable` (preflight): the catalog answers a name always alike, and a canonical name resolves to itself. Bodies are
  those read: an object met both as a view and as a function is read once, the way it was met first.
- A body's static risks are added twice (equivalence_preflight.py:441-453); the lists of the model keep repetitions that
  `_unique_strings` later removes.
- The docstring of `_merge_slow_calls` calls the kept record the call's final one. The code keeps the longest one, the
  later on a tie; `FinalRecordLosesOnlyTies` gives the exact condition and `LateWatchdogWinsTies` a run.

## Model

| member | source | states |
|---|---|---|
| FindingsSafety.SupportIsConserved | src/azure_sql_mcp/index_advisor.py:1478-1508 | For every justified list of findings, the foreign keys supported by enabled, not removed rowstore indexes are exactly those supported before it |
| FindingsSafety.PlanKeepsSupport | src/azure_sql_mcp/index_advisor.py:1297-1447 | Carrying a justified list out (removing and rebuilding indexes) leaves the supported foreign keys as they were |
| FindingsSafety.PlanKeepsCoverage | src/azure_sql_mcp/index_advisor.py:1231-1246 | Every request an enabled nonclustered index covered is covered after the plan by an enabled index, unless the plan drops that index as unused |
| FindingsSafety.SelectionKeepsSupport | src/azure_sql_mcp/index_advisor.py:1297-1447 | Any selection of a justified list of findings, carried out in any order, leaves the supported foreign keys as they were |
| FindingsSafety.SelectionKeepsCoverage | src/azure_sql_mcp/index_advisor.py:1297-1447 | Every request an enabled nonclustered index covered is covered after any selection of the findings, in any order, unless the selection drops that index as unused |
| FindingsSafety.SurvivorCarries | src/azure_sql_mcp/index_advisor.py:1851-1866 | For each consolidated index, whichever findings are carried out and in whatever order: the survivor is not removed, has the same filter, starts with its keys and directions, and as it is then defined carries all its columns with the clustering keys |
| FindingsSafety.SurvivorsAreKept | src/azure_sql_mcp/index_advisor.py:1306-1337 | No survivor is ever removed |
| FindingsSafety.ProtectedAreKept | src/azure_sql_mcp/index_advisor.py:1462-1475 | No constraint-protected index is ever removed |
| FindingsSafety.RebuiltOnce | src/azure_sql_mcp/index_advisor.py:1318-1337 | Two findings never rebuild the same survivor |
| FindingsSafety.KeeperOutranks | src/azure_sql_mcp/index_advisor.py:1451-1460 | The kept twin has the highest rank of its group, protection first |
| FindingsJustified.ReviewIsJustified | src/azure_sql_mcp/index_advisor.py:1274-1447 | The three passes (duplicates, left prefixes, unused) keep `consumed`, `removed`, `survivors` and `rebuilt` equal to what the findings say, and every finding is justified by what was found before it |
| FindingsJustified.ReviewIsSafe | src/azure_sql_mcp/index_advisor.py:1274-1447 | In every review: support is conserved, removed and surviving names are disjoint, no protected index is removed |
| FindingsJustified.ReviewKeepsCoverage | src/azure_sql_mcp/index_advisor.py:1274-1447 | In every review, what an index covered stays covered by the planned definitions unless it is dropped as unused |
| FindingsJustified.ReviewSelectionIsSafe | src/azure_sql_mcp/index_advisor.py:1274-1447 | Any selection of the findings of a review, in any order, keeps the supported foreign keys |
| FindingsJustified.ReviewSelectionKeepsCoverage | src/azure_sql_mcp/index_advisor.py:1274-1447 | Any selection of the findings of a review, in any order, keeps what every index covered that it does not drop as unused |
| FindingsJustified.ReviewRebuildsOnce | src/azure_sql_mcp/index_advisor.py:1306-1337 | In every review each survivor is rebuilt by at most one finding |
| FindingsComplete.ReviewIsComplete | src/azure_sql_mcp/index_advisor.py:1345-1447 | Nothing is overlooked: a removable twin is consumed, a left prefix is consumed or survives, an unneeded index is removed, consumed or survives |
| FindingsUnused.OnlyUnreadAreDropped | src/azure_sql_mcp/index_advisor.py:1407-1447 | An index is dropped only when it is enabled, unfiltered and unprotected, its counters show no read, neither the workload nor a plan reads it, and counters and index are old enough |
| FindingsRuled.ReviewFollowsTheRules | src/azure_sql_mcp/index_advisor.py:1274-1447 | Each finding of a review is the one that rules in the fields of the indexes call for, given the findings before it: which index goes into which, what the survivor may take, and else disabled, rarely read, filtered, sole foreign-key support, in plans, too young, or unused |
| FindingsRuled.SettledExactly | src/azure_sql_mcp/index_advisor.py:1911-1946 | An index that goes into another one is consolidated if and only if the two are no pinned twins and the other one carries its columns, or enforces no constraint, is not rebuilt by an earlier finding, stays within the number of included columns and, beyond four, within 60% of the row, and can be rendered before and after; else it is reviewed with the reason |
| FindingsRuled.MergesIntoOne | src/azure_sql_mcp/index_advisor.py:1359-1405 | The index it goes into is determined: the first of the highest precedence among its twins, or else the first of the widest live indexes that extend it |
| FindingsRuled.RedundantIndexesAreSettled | src/azure_sql_mcp/index_advisor.py:1359-1405 | Every index that goes into its kept twin is settled by a finding, and so is every one that an index extends which stays, unless it absorbs another one itself |
| FindingsRuled.OtherIndexesAreConsidered | src/azure_sql_mcp/index_advisor.py:1407-1447 | At the turn of every other index the review adds the finding that the rules call for, or nothing when they call for none |
| FindingsRules.RankIsPrecedence | src/azure_sql_mcp/index_advisor.py:1451-1460 | The compared rank orders twins by protection, pins, supported foreign keys, uniqueness, included columns and reads, each only where the earlier ones tie |
| IndexReview.Review.Run | src/azure_sql_mcp/index_advisor.py:1274-1447 | The review that updates its sets in place ends with exactly the ledger of the specified passes, so all results on reviews hold for it |
| IndexReview.Review.Consolidate | src/azure_sql_mcp/index_advisor.py:1306-1337 | One consolidation changes the four sets and the findings exactly as specified |
| IndexReview.Review.AbsorbedColumns | src/azure_sql_mcp/index_advisor.py:1851-1866 | The columns the survivor lacks, in order and without repetition |
| IndexReview.Review.GroupBySignature | src/azure_sql_mcp/index_advisor.py:1345-1362 | The dictionary of groups and its insertion order are the groups of equal key lists and filters |
| IndexReview.Review.ReviewPrefixes | src/azure_sql_mcp/index_advisor.py:1375-1405 | The second pass consolidates each eligible left prefix into its widest live extension, against the sets as they are at that point |
| IndexReview.Review.ReviewUnused | src/azure_sql_mcp/index_advisor.py:1625-1673 | The third pass on one index: skipped, reviewed with its reason, or dropped with its name added to the removed |
| IndexCandidates.MergedConserves | src/azure_sql_mcp/index_advisor.py:1021-1056 | Sorting and merging keep how often each access supports a candidate, and the sum of the savings |
| IndexCandidates.MergedServesEveryCandidate | src/azure_sql_mcp/index_advisor.py:1021-1066 | Every candidate's keys are a directed prefix of the keys of some merged candidate, and its includes are among that one's keys and includes |
| IndexCandidates.MergedKeepsShape | src/azure_sql_mcp/index_advisor.py:1021-1056 | No merged candidate names a column twice, in its keys, its includes or both, and the include bound is kept |
| IndexCandidates.SortingSorts | src/azure_sql_mcp/index_advisor.py:1023-1030 | The order in which candidates are merged is by falling savings |
| IndexCandidates.SortingPermutes | src/azure_sql_mcp/index_advisor.py:1023-1030 | Sorting neither loses nor repeats a candidate |
| IndexCandidates.SortingIsStable | src/azure_sql_mcp/index_advisor.py:1023-1030 | Candidates of equal savings stay in their order |
| IndexPlacement.MergingFollowsTheRule | src/azure_sql_mcp/index_advisor.py:1021-1066 | A candidate is merged into the first one whose directed keys begin with its own or the other way round, exactly when the result is within the bound on included columns; the result has the longer keys, the other columns of both, and the supports and savings of both |
| IndexCandidates.FittingIsLongest | src/azure_sql_mcp/index_advisor.py:934-965 | The kept keys are the longest non-empty prefix within 1700 declared bytes, or one key when none fits |
| IndexCandidates.FittingKeepsColumns | src/azure_sql_mcp/index_advisor.py:934-965 | Fitting loses no column, changes no support, and two or more kept keys are within the limit |
| IndexCandidates.FittingMarksLowSelectivity | src/azure_sql_mcp/index_advisor.py:934-965 | A candidate that keeps its keys is unchanged; one that does not is of low selectivity if and only if it was before or all keys that it keeps are |
| IndexReconcile.EveryCandidateIsProvided | src/azure_sql_mcp/index_advisor.py:1101-1202 | Each fitted candidate, except weak ones with fewer than two supports, is covered by some definition that the advice names: an existing, a changed or a new index, also when its group falls back to create |
| IndexReconcile.EveryChangeKeepsItsTarget | src/azure_sql_mcp/index_advisor.py:2186-2218 | Every advised change keeps all columns and keys of the index it changes, and covers what that index covered |
| IndexReconcile.RedefinedCovers | src/azure_sql_mcp/index_advisor.py:1205-1246 | A changed index covers every candidate its group serves |
| IndexReconcile.AdvisedKeysFit | src/azure_sql_mcp/index_advisor.py:1104-1202 | Every widened index, and every new index that has DDL, is within 1700 key bytes, also after grouping; without DDL only a single over-wide key column is advised |
| IndexReconcile.OneChangePerTarget | src/azure_sql_mcp/index_advisor.py:1154-1182 | At most one change per action and target |
| IndexReconcile.AdviceConservesSupports | src/azure_sql_mcp/index_advisor.py:1101-1202 | Each access supports exactly as many outcomes (skipped, covered, changed, new) as it supported candidates |
| IndexPlacement.CandidateIsPlacedByRule | src/azure_sql_mcp/index_advisor.py:1101-1182 | Where each candidate goes, in the fields of the catalogued indexes: skipped when weak, covered when an enabled unfiltered index provides it, joined to the first index that may be extended, else to the first that may be widened unless its group has incomparable keys, else created |
| IndexPlacement.OnlyPlainIndexesChange | src/azure_sql_mcp/index_advisor.py:1128-1182 | Every change has an enabled nonclustered, unfiltered target that is neither primary key nor unique constraint; the keys of a unique one stay; only columns that the candidates need are added, and the included columns are within the bound |
| IndexPlacement.NewIndexesFindNoTarget | src/azure_sql_mcp/index_advisor.py:1128-1182 | A candidate that is created is provided by no index, finds none to extend, and none to widen either unless the first of these is already being widened to keys that do not fit together with its own |
| IndexBounds.ColumnCounts | src/azure_sql_mcp/index_advisor.py:918-931 | A column counts with its declared width wherever it stands, one without catalog metadata with nothing |
| IndexBounds.KeptKeysFitInBytes | src/azure_sql_mcp/index_advisor.py:928-965 | Of the keys that fitting keeps any two are declared with at most 1700 bytes together |
| IndexBounds.FittingBoundsExactly | src/azure_sql_mcp/index_advisor.py:934-965 | Moving keys adds exactly the keys that do not fit to the included columns; a fitted candidate is over the bound if and only if its included columns and those keys are over it together, in number or in width |
| IndexBounds.OverwideKeyOverflowsIncludes | src/azure_sql_mcp/index_advisor.py:934-965 | So a first key over the limit alone moves all other keys and can exceed the bound |
| IndexBounds.GroupIsJoin | src/azure_sql_mcp/index_advisor.py:1205-1228 | A group is the join of the candidates that were placed on its target for its action, in order: the longest of their keys, and what any of them includes without these keys, each column once |
| IndexBounds.FallbacksAreBoundedExactly | src/azure_sql_mcp/index_advisor.py:1188-1193 | The new indexes from refused changes keep the bound if and only if, for every refused group, the columns its candidates include without its keys, counted and weighed, are within it |
| IndexBounds.NewIndexesAreBoundedExactly | src/azure_sql_mcp/index_advisor.py:1182-1202 | All new indexes of a table keep the include bound if and only if every candidate that becomes one keeps it with its moved keys, and the candidates of every refused group keep it together |
| IndexBounds.UnsharedTargetsStayBounded | src/azure_sql_mcp/index_advisor.py:1182-1202 | When all keys fit and no two candidates share an action and a target, every new index keeps the bound |
| IndexBounds.JoinedFallbackOverflows | src/azure_sql_mcp/index_advisor.py:1188-1193 | A run over the bound for every bound: two candidates that include as many columns as allowed are kept apart by merging and joined on one index, the change is refused, and their join is created with DDL and twice as many |
| IndexOutcome.AdviceCoversExactly | src/azure_sql_mcp/index_advisor.py:2186-2219 | Every fitted candidate that is not weak is covered by the table whatever the order of the changes, if and only if each one served by a change that shares its index with another change is firmly covered; without such changes all of them are |
| IndexOutcome.AlwaysCoveredExactly | src/azure_sql_mcp/index_advisor.py:2214-2219 | Each change rebuilds from the catalogued definition, so a request is covered in every order if and only if a new index covers it, or some index does under each of its advised definitions (the catalogued one when nothing changes it) |
| IndexOutcome.SometimesCoveredExactly | src/azure_sql_mcp/index_advisor.py:2214-2219 | In some order it is covered if and only if some definition that the advice names covers it |
| IndexOutcome.EveryCandidateHasAnOrder | src/azure_sql_mcp/index_advisor.py:1101-1202 | Every fitted candidate that is not weak is covered in some order |
| IndexOutcome.RivalsLoseTheWidened | src/azure_sql_mcp/index_advisor.py:1154-1182 | When an index is both extended and widened, a candidate that needs it wider is covered in every order if and only if something besides that index covers it firmly |
| IndexOutcome.RivalsLoseACandidate | src/azure_sql_mcp/index_advisor.py:1154-1182 | A run for every bound in which an extend and a widen of one index are both advised, nothing is created, and one of the two candidates is lost in either order |
| IndexOutcome.DesignedCandidateIsCovered | src/azure_sql_mcp/index_advisor.py:351-361 | End to end: let a merged candidate that is not weak serve a designed one; an index of the table after the advice starts with the designed keys that fitting kept and carries its other columns, and it covers the designed candidate when none of its keys was moved or when the merged one is covered |
| IndexOutcome.DesignedCandidateIsServed | src/azure_sql_mcp/index_advisor.py:1021-1056 | And some merged candidate serves every designed one |
| IndexOutcome.EverySupportHasOneOutcome | src/azure_sql_mcp/index_advisor.py:1021-1202 | Over merging and reconciling, each access supports exactly as many outcomes as it supported designed candidates |
| IndexReport.AlwaysCoveredExactly | src/azure_sql_mcp/index_advisor.py:378-381 | Any part of a report (the sorted list of changes, new indexes and findings, cut to a maximum): a request is covered in every order if and only if a new index of that part covers it, or an index that stays does under every definition that the part has for it |
| IndexReport.ReviewIsSelected | src/azure_sql_mcp/index_advisor.py:362-373 | The findings of every review are such a part, so all results on reports hold for any of them with any of the changes |
| IndexReport.ReportKeepsCoverage | src/azure_sql_mcp/index_advisor.py:351-381 | When no index is both changed by the advice and removed or rebuilt by the review, any part of the report in any order keeps what every enabled index covered that it does not drop as unused |
| IndexReport.ReportCoversCandidates | src/azure_sql_mcp/index_advisor.py:351-381 | Then the whole advice with any of the findings, in any order, covers every fitted candidate that is not weak, unless a change that serves it has a rival or an index dropped as unused covered it |
| IndexReport.ReportKeepsSupport | src/azure_sql_mcp/index_advisor.py:351-381 | Any part of the report in any order keeps every supported foreign key |
| IndexReport.ContestedIndexLosesOne | src/azure_sql_mcp/index_advisor.py:351-381 | A run in which the advice extends the index into which the review consolidates another: in the report's order the candidate is lost, in the other order what the removed index covered |
| IndexModel.FindClusteringKeys | src/azure_sql_mcp/index_advisor.py:995-999 | The loop returns the keys of the first enabled clustered index, or none; advice and review read their context with it |
| IndexAdvice.Candidate.FitKeyWidth | src/azure_sql_mcp/index_advisor.py:934-965 | Fitting a candidate in place equals the specified fitting, so its length, width and columns are as proved |
| IndexAdvice.Candidate.Absorb | src/azure_sql_mcp/index_advisor.py:1034-1056 | Absorbing another candidate in place equals the specified merge of the two |
| IndexAdvice.MergeCandidates | src/azure_sql_mcp/index_advisor.py:1021-1056 | Sorting and merging the candidate objects equals the specified merge |
| IndexAdvice.Reconciliation.Place | src/azure_sql_mcp/index_advisor.py:1101-1182 | One turn of the reconciliation loop: skip, covered, extend, widen or create |
| IndexAdvice.Reconciliation.GroupOnTarget | src/azure_sql_mcp/index_advisor.py:1205-1228 | Joining a candidate to the group of its target |
| IndexAdvice.Reconciliation.Reconcile | src/azure_sql_mcp/index_advisor.py:1074-1202 | The reconciliation that regroups candidate objects in place ends with exactly the specified changes and new indexes |
| IndexNames.GeneratedName | src/azure_sql_mcp/index_advisor.py:2649-2660 | The search ends, and the name is the first of base, base_2, base_3, ... that is not taken |
| IndexNames.GeneratedNames | src/azure_sql_mcp/index_advisor.py:1194-1202 | All names of one reconciliation are new and distinct |
| PreflightSoundness.RisklessIsCertified | src/azure_sql_mcp/equivalence_preflight.py:231-280 | No risk codes: there is an order of the bodies read in which the query and every body are clean, and each needs only bodies finished before it |
| PreflightSoundness.ReachableIsRead | src/azure_sql_mcp/equivalence_preflight.py:282-469 | Then every object on any chain of references from the query was read, parsed, and is clean |
| PreflightSoundness.ResolvedIsOrdered | src/azure_sql_mcp/equivalence_preflight.py:426-469 | With an empty unresolved list the analysed bodies are exactly those of such a finish order, although a body is marked on entry and skipped later |
| PreflightSoundness.ReadBodiesAreAcyclic | src/azure_sql_mcp/equivalence_preflight.py:308-363 | In such an order no chain of references returns to its start |
| PreflightSoundness.UnresolvedLeavesRisk | src/azure_sql_mcp/equivalence_preflight.py:960-984 | Fail closed, whatever the catalog answers: each unresolved dependency left its reason among the risk codes |
| PreflightVerdict.RisklessIsAccounted | src/azure_sql_mcp/equivalence_preflight.py:364-424 | Fail closed, in the catalog's answers: without risk codes every reference of the query and of every body read is to this database and is a view or function whose body was read and parses, a table, or an XML method that no object bears the name of; never an encrypted, inaccessible or unresolved object |
| PreflightVerdict.EveryReferenceIsAnswered | src/azure_sql_mcp/equivalence_preflight.py:282-424 | Each of these references is answered by its status: an encrypted, inaccessible or unresolved object leaves the issue of that very status and kind, an object with a body is read or leaves the reason why it was not |
| PreflightVerdict.EveryReasonIsCaused | src/azure_sql_mcp/equivalence_preflight.py:293-424 | And no issue without its cause: cross-database, cyclic, too deep beyond the limit, unreadable by the answered status, or a definition that does not parse |
| PreflightVerdict.UnsafeFunctionsAreReported | src/azure_sql_mcp/equivalence_preflight.py:426-453 | Each function that reads the clock or differs by row, in the query or a body read, leaves its own risk code |
| PreflightVerdict.OtherDatabasesAreNotAsked | src/azure_sql_mcp/equivalence_preflight.py:293-326 | The catalog is asked for names of this database only |
| PreflightCompleteness.FineQueriesPass | src/azure_sql_mcp/equivalence_preflight.py:282-469 | A clean query over clean, readable dependencies no deeper than the limit ends without risks and without unresolved dependencies, whatever is shared |
| PreflightService.Inspection.InspectReference | src/azure_sql_mcp/equivalence_preflight.py:282-469 | The recursive call on shared lists does exactly the specified traversal and ends for every graph, cyclic ones included |
| PreflightService.Inspection.LookUp | src/azure_sql_mcp/equivalence_preflight.py:321-326 | The catalog is asked once per name |
| PreflightService.Inspection.EnterBody | src/azure_sql_mcp/equivalence_preflight.py:426-453 | Name, key and risks of a readable body are appended: function risks once, static ones twice |
| PreflightService.AnalyzeQuery | src/azure_sql_mcp/equivalence_preflight.py:211-280 | A depth outside 0 to 8 is refused; otherwise the result is the specified one |
| PoolSafety.SlotsAreAccountedFor | src/azure_sql_mcp/connection_pool.py:232-348 | In every interleaving the slot count is idle + leased + (creating, checking, closing) and at most the pool size; active connections are the leases |
| PoolSafety.GuardsNeverAct | src/azure_sql_mcp/connection_pool.py:317-348 | A release always finds room, a finished close always a slot, and the active count is positive before it is lowered: QueueFull, the `> 0` guard and the clamps never take effect |
| PoolSafety.StepKeepsSound | src/azure_sql_mcp/connection_pool.py:232-360 | Every step keeps each connection in one place and the slots accounted for |
| PoolHistory.NoConnectionIsLost | src/azure_sql_mcp/connection_pool.py:232-348 | Conservation over every run: each connection ever made is idle, leased, being checked, or was discarded, and each only once |
| PoolHistory.PeakIsMostActive | src/azure_sql_mcp/connection_pool.py:252-300 | The recorded peak is the largest number of connections active at once |
| PoolHistory.QueueIsInReleaseOrder | src/azure_sql_mcp/connection_pool.py:309-334 | On a clock that does not go back, the queue holds idle connections in the order of their release, so the longest idle one is taken first |
| PoolLending.IdleIsLentExactlyWhenFresh | src/azure_sql_mcp/connection_pool.py:309-315 | In every run: the idle connection that a task takes is lent in the same step if and only if it was last released less than 60 seconds before; otherwise the task is suspended until it is checked |
| PoolLending.GrantedExactly | src/azure_sql_mcp/connection_pool.py:245-307 | A step grants a connection if and only if it was made just now, passed its check just now, or was taken idle less than 60 seconds after its last release |
| PoolLending.CountersCount | src/azure_sql_mcp/connection_pool.py:232-345 | The counters are the numbers of acquires let in, releases, connections made and closes begun |
| PoolBreaker.BreakerReadsHistory | src/azure_sql_mcp/connection_pool.py:125-158 | The breaker's fields are what the history of attempts says: failures since the last success, open exactly after five of them with no probe since |
| PoolBreaker.RefusedExactlyWhenTripped | src/azure_sql_mcp/connection_pool.py:125-138 | An acquire is refused exactly when the pool is closed, or the breaker is tripped and its cooldown has not passed |
| PoolBreaker.OnlyReleasesFeedTheQueue | src/azure_sql_mcp/connection_pool.py:317-334 | Only a release puts a connection where a waiting task can get it |
| PoolCirculation.StepLends | src/azure_sql_mcp/connection_pool.py:232-348 | After a step the pool can lend no connection that was not idle, leased or being checked before, except the one that the step creates |
| PoolBreaker.OnlyFreedSlotsAreMissed | src/azure_sql_mcp/connection_pool.py:266-307 | A task comes to wait beside a free slot only at the end of a close or at a failed creation |
| PoolBreaker.FreedSlotIsMissedExactly | src/azure_sql_mcp/connection_pool.py:289-348 | A slot that a failed creation or the end of any close gives back leaves a task waiting beside it exactly when some task waits, unless an acquire goes on in the same step and takes the slot again, which it does when nothing is idle and the pool was full |
| PoolBreaker.SmoothRunsMissNoSlot | src/azure_sql_mcp/connection_pool.py:299-348 | In a run without discard, close_all, failed checks and failed creations no task ever waits beside a free slot |
| PoolBreaker.LastDiscardStrands | src/azure_sql_mcp/connection_pool.py:336-348 | Discarding the last lease leaves every waiting task waiting although all slots are free |
| PoolBreaker.StrandedStays | src/azure_sql_mcp/connection_pool.py:299-307 | And nothing but a new acquire changes that |
| PoolBreaker.RunsMayStrand | src/azure_sql_mcp/connection_pool.py:299-348 | Such a state is reachable |
| ConnectionPool.Pools.EnterAcquire | src/azure_sql_mcp/connection_pool.py:232-298 | A closed pool and a tripped breaker refuse and change nothing; otherwise the fields become those of the specified first step, half-opening the breaker; as every step, it keeps the slots accounted for |
| ConnectionPool.Pools.SeekConnection | src/azure_sql_mcp/connection_pool.py:245-299 | One turn of acquire's loop: the oldest idle connection, else a slot, else the queue; the new fields are those of the specification |
| ConnectionPool.Pools.FinishCheck | src/azure_sql_mcp/connection_pool.py:252-265 | A usable connection is lent and counted as a success; any other is discarded and the loop entered again |
| ConnectionPool.Pools.FinishCreate | src/azure_sql_mcp/connection_pool.py:279-287 | The new connection is lent, creation and success are counted, the slot stays taken |
| ConnectionPool.Pools.FailCreate | src/azure_sql_mcp/connection_pool.py:289-293 | The slot is given back and the failure recorded with its time; the fifth in a row opens the breaker |
| ConnectionPool.Pools.Wake | src/azure_sql_mcp/connection_pool.py:299-307 | A waiter that was woken takes the oldest idle connection, checked unless it was released within 60 seconds |
| ConnectionPool.Pools.EnterRelease | src/azure_sql_mcp/connection_pool.py:317-334 | The lease ends and the idle time starts before anything else; then queue, or discard when the pool is closed or the queue full |
| ConnectionPool.Pools.BeginDiscard | src/azure_sql_mcp/connection_pool.py:336-345 | Lease and idle time are dropped and the active count lowered only if there was a lease, before the close |
| ConnectionPool.Pools.EnterDiscard | src/azure_sql_mcp/connection_pool.py:336-345 | A caller's discard takes the specified first step and keeps the slots accounted for |
| ConnectionPool.Pools.FinishClose | src/azure_sql_mcp/connection_pool.py:345-348 | The slot is given back, and the coroutine goes on as acquire, close_all or its caller requires |
| ConnectionPool.Pools.EnterCloseAll | src/azure_sql_mcp/connection_pool.py:350-360 | The pool is closed first, then the queue drained one connection at a time |
| ExecutorSafety.HandedBackExactlyOnce | src/azure_sql_mcp/connection.py:246-291 | In every interleaving: a call that is through handed its connection back exactly once; one that still owns it, cancelled or not, handed back nothing and holds the only lease; whether it still can is said by ExecutorLosses |
| ExecutorSafety.ReleasedExactlyWhenClean | src/azure_sql_mcp/connection.py:280-288 | As the flags and the finally block decide it: a connection is released exactly when the worker succeeded, the await was not interrupted, and the mode is neither an admin batch nor a transaction; one handed back under a running worker is discarded |
| ExecutorEvents.ReleasedExactlyByMoves | src/azure_sql_mcp/connection.py:246-291 | In every run: a move releases a connection if and only if a call resumes by it whose thread has ended well and which began neither as an admin batch nor as a transaction |
| ExecutorSafety.HandedBackUnderAWorkerExactly | src/azure_sql_mcp/connection.py:654-671 | A connection is handed back while its thread runs if and only if the worker's task or the cleanup task of its call was cancelled before and the thread has not ended since |
| ExecutorSafety.NoThreadSharesItsConnection | src/azure_sql_mcp/connection.py:654-671 | The connection of a running thread belongs to no other call; once it was handed back the pool never lends it again |
| ExecutorSafety.WorkersMayBeOutlived | src/azure_sql_mcp/connection.py:663-666 | Such a hand-back is reachable: cancelling the waiting cleanup task ends its await and the discard follows |
| ExecutorLosses.NeverHandedBackExactly | src/azure_sql_mcp/connection.py:273-291 | A connection that a call owns is never handed back, however the run goes on, if and only if the call's cleanup task was cancelled before it began; in every other run some continuation hands it back |
| ExecutorLosses.LostExactly | src/azure_sql_mcp/connection.py:273-279 | The lost calls of a run are exactly those whose cleanup task was cancelled, by a move of the run, before it began |
| ExecutorLosses.LostStays | src/azure_sql_mcp/connection.py:273-279 | From then on, in every longer run, the connection stays leased to its call and is not logged as handed back |
| ExecutorLosses.ConnectionsMayBeLost | src/azure_sql_mcp/connection.py:273-279 | Such a run exists |
| ExecutorSafety.IdleConnectionsAreClean | src/azure_sql_mcp/connection.py:282-288 | The idle queue holds only connections whose last use succeeded, was not interrupted and was neither an admin batch nor a transaction; none of them is in use, nor has a thread running on it |
| ExecutorSafety.ExecutorKeepsThePoolsRules | src/azure_sql_mcp/connection.py:406-445 | Every run of the executor is a run of the pool in which only leased connections are handed back, so the pool's results hold without an assumption on its callers |
| ExecutorOwnership.LeaveAttempt | src/azure_sql_mcp/connection.py:253-288 | The flags and the finally block, for every mode: left to the cleanup task exactly when the await was interrupted, released exactly when it was answered and the mode is reusable |
| SqlTokenizer.TokenizeSql | src/azure_sql_mcp/admin_policy.py:651-704 | The scanner's single loop gives exactly the tokens of the text |
| SqlTokenizer.BracketedReadsBack | src/azure_sql_mcp/index_ddl.py:24-29 | A bracketed identifier is read back whole, with the exact rest, whatever it contains |
| SqlTokenizer.LiteralReadsBack | src/azure_sql_mcp/index_ddl.py:694-695 | A national literal is read back as the text it was printed from, with the exact rest |
| SqlTokenizer.CommentsAreInert | src/azure_sql_mcp/index_ddl.py:698-699 | Commented-out text of any content has no tokens |
| SqlTokenizer.CommentsKeepTheText | src/azure_sql_mcp/index_ddl.py:698-699 | Commenting out keeps the text: the same lines, each behind the comment mark |
| SqlTokenizer.LinesReadBack | src/azure_sql_mcp/index_ddl.py:698-699 | A text put together from lines and line ends, CR LF or one boundary character, is split into exactly these lines |
| SqlTokenizer.LetterCaseIsIgnored | src/azure_sql_mcp/admin_policy.py:680-702 | Whatever is written with letters that are upper-cased to a word reads as that word |
| SqlTokenizer.GapVanishes | src/azure_sql_mcp/admin_policy.py:651-724 | White space, closed nested comments and ended line comments in front of a text change no token |
| SqlTokenizer.GapsAreInterchangeable | src/azure_sql_mcp/admin_policy.py:651-724 | Between a word and what follows, all non-empty gaps read the same |
| SqlLayout.LayoutReadsBack | src/azure_sql_mcp/admin_policy.py:651-704 | Any text laid out from lexemes (any case, any literal prefix, any gaps) is read back as those lexemes |
| SqlLexis.ReadRestores | src/azure_sql_mcp/admin_policy.py:727-754 | Reading delimited text loses nothing |
| SqlLexis.ReadDelimited | src/azure_sql_mcp/admin_policy.py:727-754 | The readers return the decoded content and the exact end |
| SqlLexis.NestedCommentEnds | src/azure_sql_mcp/admin_policy.py:713-724 | A block comment ends at its own mark whatever comments are nested in it, and without the mark at the end of the text |
| SqlLexis.LineCommentEnds | src/azure_sql_mcp/admin_policy.py:707-710 | A line comment ends at the first carriage return or line feed and nowhere else |
| SqlLexis.SkipBlockComment | src/azure_sql_mcp/admin_policy.py:713-724 | The skipper of nested comments stops where the nesting closes |
| DropDatabaseSoundness.ReachableDropIsRejected | src/azure_sql_mcp/admin_policy.py:379-415 | A text whose run reaches DROP DATABASE within eight nested executions is flagged, however it is laid out: EXEC or EXECUTE of a text put together from literals and variables, or of sp_executesql with any qualifiers, number, result variable and arguments |
| DropDatabaseSoundness.ProgramIsFlaggedExactly | src/azure_sql_mcp/admin_policy.py:379-415 | A text is flagged if and only if it has the words DROP DATABASE or some statement of it executes a text that is flagged, with the values that the check has there |
| DropDatabaseStatements.StatementScans | src/azure_sql_mcp/admin_policy.py:379-589 | The scan of a SET, SELECT, DECLARE, EXEC or EXECUTE statement flags if and only if the text it executes is flagged or the scan behind it flags, with the values that running the statement leaves in the variables; of a SELECT the first variable is followed |
| DropDatabaseStatements.OtherModulesAreNotRead | src/azure_sql_mcp/admin_policy.py:516-559 | An EXEC of any module but sp_executesql is not looked into, whatever its result variable, qualifiers, procedure number and arguments |
| DropDatabaseStatements.NamelessIsNotRead | src/azure_sql_mcp/admin_policy.py:516-536 | Nor is an EXEC of a variable, or of anything that is neither a name nor in parentheses |
| DropDatabasePrograms.ValueIsKnownExactly | src/azure_sql_mcp/admin_policy.py:592-611 | Whatever the tokens of an expression, the check has a value for it if and only if each one is a literal, a known variable, a plus sign or a parenthesis, and one is more than a sign |
| DropDatabaseStatements.ExpressionIsFlaggedExactly | src/azure_sql_mcp/admin_policy.py:402-414 | An executed expression is flagged if and only if its value is, or the text in front of its first unknown part |
| DropDatabasePrograms.ExpressionHasItsValue | src/azure_sql_mcp/admin_policy.py:592-611 | The check's value of a concatenation, nested in parentheses or not, is its value when run, NULL included |
| DropDatabaseSoundness.EightLevelsAndNoMore | src/azure_sql_mcp/admin_policy.py:379-386 | DROP DATABASE buried n executions deep is found if and only if n is at most eight |
| DropDatabaseSoundness.WrappingCostsOneLevel | src/azure_sql_mcp/admin_policy.py:398-414 | A batch that executes a literal is flagged exactly when the literal is, one level deeper |
| DropDatabaseSoundness.PrefixIsChecked | src/azure_sql_mcp/admin_policy.py:614-631 | A batch that executes a known text followed by an unknown part is flagged for the known text |
| DropDatabaseCheck.ContainsDropDatabase | src/azure_sql_mcp/admin_policy.py:379-415 | The loop over statements and the recursion into executed text flag exactly what the specification flags, at every depth |
| DropDatabaseCheck.UpdateKnownVariable | src/azure_sql_mcp/admin_policy.py:418-458 | The new known values are those the specification gives: reassigned at a SET, SELECT or DECLARE target with an equals sign, joined for +=, unknown when any part is, else unchanged |
| DropDatabaseCheck.FindAssignmentEquals | src/azure_sql_mcp/admin_policy.py:461-478 | The first equals sign outside parentheses before the item or the statement ends, or none |
| DropDatabaseCheck.AssignmentExpression | src/azure_sql_mcp/admin_policy.py:481-513 | The tokens up to the end of the assigned expression, which depends on the kind of assignment |
| DropDatabaseCheck.ExecutedExpression | src/azure_sql_mcp/admin_policy.py:516-536 | The tokens of the text an EXEC runs: its matching parentheses or sp_executesql's first argument, or none |
| DropDatabaseCheck.QualifiedName | src/azure_sql_mcp/admin_policy.py:539-559 | The last part of a dotted name, and its procedure number |
| DropDatabaseCheck.FirstArgumentExpression | src/azure_sql_mcp/admin_policy.py:562-589 | The tokens of the first argument, up to a comma, a semicolon or an unmatched parenthesis |
| DropDatabaseCheck.LiteralConcatenation | src/azure_sql_mcp/admin_policy.py:592-611 | The joined text if every part is known and there is one, else none |
| DropDatabaseCheck.LiteralPrefix | src/azure_sql_mcp/admin_policy.py:614-631 | The joined text in front of the first part that is not known |
| DropDatabaseCheck.MatchingClosingParenthesis | src/azure_sql_mcp/admin_policy.py:634-648 | The position where the opened parenthesis closes, nesting counted, or none |
| DropDatabaseCheck.ValidateSql | src/azure_sql_mcp/admin_policy.py:58-60 | A text is accepted exactly when the check does not flag it |
| Redaction.RedactSqlLiterals | src/azure_sql_mcp/observability.py:116-156 | The scanner's single loop gives exactly the masked text |
| Redaction.EveryTextReads | src/azure_sql_mcp/observability.py:116-156 | Every text has a lexical reading that prints back to it |
| Redaction.ReadingIsUnique | src/azure_sql_mcp/observability.py:116-156 | Any well-formed list of segments is read back from its own text, so the reading is unique |
| Redaction.RedactsEverySegment | src/azure_sql_mcp/observability.py:116-156 | The output masks the body of every literal and comment and keeps everything else |
| Redaction.RedactionIsIdempotent | src/azure_sql_mcp/observability.py:116-156 | Redacting twice is redacting once |
| Redaction.ContentIndependence | src/azure_sql_mcp/observability.py:116-156 | Any two texts of the same frame, whatever their bodies hold, redact alike |
| Redaction.RedactionHidesExactlyTheBodies | src/azure_sql_mcp/observability.py:116-156 | Two texts redact alike if and only if their readings differ in nothing but the bodies, and in whether the last one is closed |
| SlowCallWatch.EndedCallIsOneRecord | src/azure_sql_mcp/incident_log.py:1080-1130 | For all interleavings of watchdog and end(): after the merge a call that ended past the threshold is one slow record with its final time, and all other records are unchanged |
| SlowCallWatch.AtMostOneOfEach | src/azure_sql_mcp/incident_log.py:1214-1221 | At most one record of a running call and one final record |
| SlowCallWatch.FinalRecordLosesOnlyTies | src/azure_sql_mcp/incident_log.py:2385-2398 | The merged record is the one that end() wrote exactly unless a later record of the call has the same rounded time |
| SlowCallWatch.LateWatchdogWinsTies | src/azure_sql_mcp/incident_log.py:1575-1612 | Such a tie is reachable: the export then says that the ended call is running |
| SlowCallWatch.ShortCallLeavesNone | src/azure_sql_mcp/incident_log.py:1121-1128 | A call that ends before the threshold leaves no slow record |
| SlowCallWatch.RunningRecordsAreReports | src/azure_sql_mcp/incident_log.py:1606-1612 | A call has a record as a running one exactly as often as the watchdog reported it while the loop was not blocked |
| SlowCallMerge.MergeSlowCalls | src/azure_sql_mcp/incident_log.py:2385-2398 | The dictionary in insertion order and the list give the other records first, then one record per call |
| SlowCallMerge.MergedHasOne | src/azure_sql_mcp/incident_log.py:2385-2398 | Each call with a slow record is left with one, the others come first and unchanged |
| SlowCallMerge.LongestIsLatest | src/azure_sql_mcp/incident_log.py:2385-2398 | Among equally long records the last one is kept |
| SlowCallLog.CallLog.TryClaim | src/azure_sql_mcp/incident_log.py:1214-1221 | Exactly one of the two sides gets the flag; nothing else changes |
| SlowCallLog.CallLog.LookAtCall | src/azure_sql_mcp/incident_log.py:1585-1595 | A call is suspected exactly when it is unflagged and past the threshold by the clock of the pass |
| SlowCallLog.CallLog.ClaimSuspect | src/azure_sql_mcp/incident_log.py:1602-1605 | Only a claim that succeeds leads to a report |
| SlowCallLog.CallLog.ReportSuspect | src/azure_sql_mcp/incident_log.py:1606-1612 | The report gives the time of the pass, unless the loop is blocked, and the pass goes on |
| SlowCallLog.CallLog.ClaimEnded | src/azure_sql_mcp/incident_log.py:1121-1126 | A slow call goes on to its final record whether or not the watchdog had the flag |
| SlowCallLog.CallLog.RecordEnded | src/azure_sql_mcp/incident_log.py:1127-1128 | One record with the final time and outcome is appended |
| IncidentDayLog.DayLog.Write | src/azure_sql_mcp/incident_log.py:1849-1895 | A record is stored within its limit; the first refusal of a day appends one marker, later ones nothing; failures count up to the third |
| IncidentDayLog.StoredExactly | src/azure_sql_mcp/incident_log.py:1849-1895 | After any run: a record is stored if and only if the log is on, it can be written, and its day's file with it stays within 5 MiB, for a routine record within four fifths of that; else it is refused for the cap exactly when it is over |
| IncidentDayLog.FileHoldsWhatWasStored | src/azure_sql_mcp/incident_log.py:1855-1895 | The urgent and the routine bytes of a file are those of the urgent and the routine records stored for its day |
| IncidentDayLog.FileExceedsCapByOneMarker | src/azure_sql_mcp/incident_log.py:1855-1895 | While days go forward, no file exceeds the cap by more than one marker |
| IncidentDayLog.FileExceedsCapByItsMarkers | src/azure_sql_mcp/incident_log.py:1855-1895 | For days in any order, no file exceeds the cap by more than one marker for each refusal of its day that follows a refusal of another day or none |
| IncidentDayLog.MarkersAreTurns | src/azure_sql_mcp/incident_log.py:1873-1889 | A file has exactly one marker for each refusal of its day whose write works and whose preceding refusal, if any, was of another day |
| IncidentDayLog.SecondMarkerExactly | src/azure_sql_mcp/incident_log.py:1876-1878 | A file gets a second marker only when a refusal of another day falls between two refusals of its day, and if no write fails it does get one then |
| IncidentDayLog.UrgentIsRefusedOnlyByUrgent | src/azure_sql_mcp/incident_log.py:1858-1859 | A P1 or P2 record is refused only if P1, P2 and marker bytes with it exceed a fifth of the cap, whatever routine traffic came first |
| IncidentDayLog.AlternatingDaysMarkAgain | src/azure_sql_mcp/incident_log.py:1876-1879 | Records of two days, however small: a run of only these two fills both days and puts a second marker into the first file |
| IncidentDayLog.DisabledAtTheThirdFailure | src/azure_sql_mcp/incident_log.py:1890-1894 | The log turns itself off exactly at the third failure in a row |
| IncidentWindows.LoopWatch.Observe | src/azure_sql_mcp/incident_log.py:1225-1256 | Old hits go, the new one is kept, and a loop is flagged exactly at the threshold with no flag in the window |
| IncidentWindows.LoopsAreFlagged | src/azure_sql_mcp/incident_log.py:1241-1256 | As many hits within the window as the threshold leave a loop record within that window |
| IncidentWindows.LoopIsFlaggedExactly | src/azure_sql_mcp/incident_log.py:1241-1256 | A hit leaves a loop record if and only if the last 15 minutes hold as many hits as the threshold and no loop record |
| IncidentWindows.FlagsAreAWindowApart | src/azure_sql_mcp/incident_log.py:1248-1254 | Two loop records of one key are at least a window apart |
| IncidentWindows.HitsAreRecent | src/azure_sql_mcp/incident_log.py:1241-1245 | The hits that are kept are all hits of the window |
| IncidentWindows.ReportBook.ReportBlocker | src/azure_sql_mcp/incident_log.py:1423-1465 | Repeats coalesce before the limit is looked at, and what was not written is not remembered |
| IncidentWindows.AtMostTwentyAnHour | src/azure_sql_mcp/incident_log.py:1440-1441 | Between a recorded report and the twentieth after it lies at least an hour |
| IncidentWindows.RepeatsAreTenMinutesApart | src/azure_sql_mcp/incident_log.py:1430-1439 | Two recorded reports of one fingerprint are at least ten minutes apart |
| IncidentWindows.CoalescedExactly | src/azure_sql_mcp/incident_log.py:1430-1439 | A report is coalesced exactly when the same was recorded within ten minutes |
| IncidentWindows.RecordedExactly | src/azure_sql_mcp/incident_log.py:1440-1465 | A report is recorded exactly when it repeats nothing, the hour has room, and it can be written |
| ArtifactStore.Store.PutText | src/azure_sql_mcp/artifact_store.py:49-92 | The size total and both bounds hold after every put; the new state is the trimmed recency list, and too large an artifact is refused |
| ArtifactStore.Store.Get | src/azure_sql_mcp/artifact_store.py:94-101 | A hit becomes the most recent artifact and nothing else moves; a miss leaves the live artifacts |
| ArtifactStore.Store.EvictToBounds | src/azure_sql_mcp/artifact_store.py:113-116 | The loop evicts to the bounds and never reads an empty store |
| ArtifactStore.Store.EvictExpired | src/azure_sql_mcp/artifact_store.py:103-111 | Exactly the expired artifacts go |
| ArtifactStore.Store.Remove | src/azure_sql_mcp/artifact_store.py:118-120 | One removal lowers the total by exactly its size: the clamp never acts |
| ArtifactStore.Store.Configure | src/azure_sql_mcp/artifact_store.py:30-47 | Bounds that are not positive are refused |
| ArtifactStore.TrimmedIsLongestFit | src/azure_sql_mcp/artifact_store.py:113-116 | Eviction leaves the longest suffix of the recency order that fits |
| ArtifactStore.SurvivesPutExactly | src/azure_sql_mcp/artifact_store.py:49-92 | An artifact outlives a put if and only if it fits together with everything used after it |
| ArtifactStore.StoredSurvives | src/azure_sql_mcp/artifact_store.py:77-79 | A just-stored artifact always survives, as the most recent |
| ArtifactStore.HitGoesLast | src/azure_sql_mcp/artifact_store.py:94-101 | A hit goes behind all other live artifacts, which keep their order |
| ArtifactStore.HitOutlivesThePut | src/azure_sql_mcp/artifact_store.py:77-101 | So it outlives the next put whatever that evicts, when the two fit together |
| OrderContract.OrderContractRisk | src/azure_sql_mcp/equivalence_contract.py:302-341 | No risk exactly when each baseline order is a prefix of the candidate's; else the first result set that breaks it, with the reason |
| OrderContract.KeptOrderIsSorted | src/azure_sql_mcp/equivalence_contract.py:302-313 | Rows sorted by the candidate's directed keys are sorted by the baseline's, for any relation per key |
| OrderContract.ContractIsExact | src/azure_sql_mcp/equivalence_contract.py:302-341 | For orders that repeat no expression, keeping the prefix is also necessary: otherwise some order and rows are sorted for the candidate and not for the baseline |
| OrderContract.NoOrderKeepsNothing | src/azure_sql_mcp/equivalence_contract.py:318-324 | A candidate without an ORDER BY keeps no order |

## Left out

- ConnectionPool.Pools.Wake: does not model which waiter the queue wakes, because no progress is claimed; PoolBreaker shows that waiters may be stranded.
- ExecutorSafety.HandedBackExactlyOnce: does not model cancellation inside the pool's own acquire, release and discard, the cleanup task's discard included, because it escapes `except Exception` there and the slot is lost; automatic retries are further calls.
- PoolSafety.SlotsAreAccountedFor: models one database, because pools of different databases share only the closed flag; leak reports and wait-time totals are left out.
- SlowCallWatch.EndedCallIsOneRecord: takes writes of the log to succeed, because refused and failed writes are the subject of IncidentDayLog; stuck-call records and the journal of calls in flight are left out.
- IncidentDayLog.FileExceedsCapByOneMarker: models one process that starts with empty files, because the size check and the write of two processes are not atomic together; deletion of an open file is left out.
- IncidentWindows.AtMostTwentyAnHour: models one session whose reports come one after another, because the write happens outside the lock; eviction of the oldest of more than a thousand keys is left out, for loops as well.
- ArtifactStore.Store.PutText: takes the identifier to be new, because it is a random 128-bit number; text, digest and time stamps are left out.
- IndexReconcile.AdvisedKeysFit: does not bound the included columns of new indexes, because the code does not check that bound again; IndexBounds says when it is kept.
- IndexReconcile.OneChangePerTarget: allows one index to be the target of an extend and of a widen, because the code keys its groups by action and name; IndexOutcome says what is lost then.
- IndexReconcile.EveryCandidateIsProvided: counts the definitions that the advice names, of which two of one index cannot exist together; IndexOutcome speaks of the table afterwards.
- IndexReport.AlwaysCoveredExactly: leaves out the advice to give a heap a clustered index, because it only adds an index, and entries that advise a review only.
- DropDatabaseStatements.StatementScans: takes function calls in an assigned expression only in front or in parentheses, because the check reads a word elsewhere as the start of the next statement.
- DropDatabaseSoundness.ReachableDropIsRejected: covers straight-line SET, SELECT, DECLARE, EXEC, EXECUTE and DROP DATABASE statements, because control flow and values computed at run time are not constants. Of a SELECT with several variables the check follows the first (DropDatabaseStatements.StatementScans), so here a SELECT assigns one; dotted names have all their parts, and the declared type of a variable does not cut its value.
- Confidence labels, scores, rationale, dates, size estimates and the DDL text of the index advice: presentation. Whether reverse DDL can be rendered is a parameter of the review.
- The share of 0.6 above which includes are too wide is an exact fraction, and the row width is given with the catalog; floating-point rounding is not modelled.
- The SQL parser, show plans and the catalog queries: parameters.
- Compression options per partition (index_ddl.py:329-360), cursor timeouts, batch consumption and driver messages (connection.py): bookkeeping with easy statements only.
- Redaction of quoted content in error messages, and other text heuristics of the logs: no law of their own to state.
- Resolution of sort expressions to keys (equivalence_contract.py:344-423): syntax trees of the parser.
- Configuration, policies by database and tier, health, diagnostics, introspection and command-line tools: tables and query text.
