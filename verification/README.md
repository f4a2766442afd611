# Proofs about the scanning and remediation pipeline

A static taint scanner reports candidate findings; findings are grouped across repositories, validated,
proven, put up for human approval, patched and checked again, while deadlines run and every stage of a
scan is accounted for. This Dafny project models the parts of that pipeline that carry the most state
and branching, and proves what they promise. `dafny verify dfyconfig.toml` checks all of it.

How it is put together:

* Code that updates things step by step is a class or a method with loops, proved equal to a
  specification function; the theorems are lemmas about those functions, and about whole runs of them.
* **Taint engine** (`TaintSyntax`, `TaintCalls`, `TaintEngine`, `TaintPass`, `TaintNames`, `TaintRun`,
  `TaintSoundness`, `TaintPasses`, `TaintLimits`, `TaintProvenance`, `TaintOrigins`, `TaintFindings`). The walk
  over a Python fragment, its projection to sets of names, a dynamic semantics in which every branch, loop round
  and exception is a choice, and soundness of the one against the other. A run may stop at any point, so a
  statement about all runs is a statement about every intermediate point. A second account of the walk lists the
  sources that reach each name and sink without merging them; the findings are exactly what it tells.
* **Bounded search** (`GraphSearch`): the queue over data-flow edges against the existence of a path.
* **Benchmark** (`Matching`, `Matcher`, `Metrics`): greedy matching under any relation, its two uses, and
  what rounding does to the F1 score.
* **Deduplication** (`Fingerprint`, `Signature`, `DedupGroups`, `DedupService`, `DedupTheorems`): what a
  fingerprint tells of a finding, and the registry kept up to date in place against the one-shot grouping
  of the live findings.
* **Patches** (`PatchQuery`, `PatchConcatenation`, `PatchSearch`, `PatchLines`, `PatchText`): query parameterization
  against PEP 249 binding (paramstyle `qmark`), with and without regard to quotes; what the search finds
  against what runs; and the line-splicing edit.
* **Approval and pipeline** (`Approval`, `ApprovalRaces`, `ApprovalService`, `Pipeline`, `PipelineRecords`,
  `PipelineOffers`, `PipelineAnswers`, `PipelineRoute`, `PipelineService`): the approval state machine with its
  audit trail, call by call and with checks and saves interleaved, the gates from validation to applied patch over
  whole runs, and what a remediation record says about the run.
* **SLA** (`Sla`, `SlaHistory`, `SlaStore`, `SlaConcurrent`, `SlaStarts`, `SlaRaces`, `SlaLosses`): one record from
  the policy it is started under, any calls one after the other, one cycle of the evaluator, and any number of
  threads checking, starting and resolving at once, modelled read by read and write by write.
* **Scan runs** (`ScanRuns`, `ScanRunTheorems`, `ScanRunMirror`, `ScanRunStore`, `ScanRunService`):
  overlapping executions, their history, the mirrored rows and a restart from them.

Where the code does not do what its documentation says, the code is modelled as it is; a lemma gives the
input that shows it and another says when, mostly exactly when, the promise is kept:

* One walk over a loop or a `finally` block is called a sound over-approximation. It is not:
  `TaintPasses.LoopElseMissed`, `TaintPasses.SecondRoundMissed`, `TaintPasses.FinallyAfterHandlerMissed`.
  Soundness holds without loops and `finally` (`TaintSoundness.TaintSound`), for every program on which a
  second walk finds nothing new (`TaintLimits.SecondWalkEnsures`), and for every program after as many
  walks as it assigns names (`TaintPasses.IteratedWalkIsSound`). One walk finds what any number of walks
  find exactly if the second finds nothing new (`TaintLimits.SecondWalkTells`).
* "Every finding survives in exactly one group" fails when a rescan changes a finding's content under
  its id: `DedupTheorems.ChangedFindingListedTwice`, with the condition in `DedupTheorems.OneGroupEachIff`.
  A submission that names an id twice lists it twice (`DedupTheorems.DedupKeepsGroupingIff`).
* Requests and decisions check and save without a lock: two at once can leave two active requests
  (`ApprovalRaces.TwoActive`) or overrule an approval (`ApprovalRaces.ApprovalOverruled`); what keeps the
  history sound is named exactly in `ApprovalRaces.ConsistentIff`.
* "No new request after a terminal one for the same finding and action" looks at the finding's newest
  request of any action. It lets a decided action be asked for again (`Approval.DecisionHidden`) and refuses
  an action never asked for (`Approval.WrongRefusal`), exactly as `Approval.ReRequestGateIff` says.
* Checks hold a lock, but starts, resolutions and removals do not. A resolution can be undone
  (`SlaLosses.ResolutionLost`), a breach can be overwritten under its event (`SlaLosses.BreachLost`), and a
  removal can take the events of a record that comes back (`SlaLosses.RemovalLeavesLevel`). The writes that
  do so are named exactly in `SlaRaces.MatchIff` and `SlaRaces.BackwardsIff`. A record row that cannot be
  written loses its escalation event (`SlaStore.EventLostIff`).
* A proof is recorded even if its finding was deleted while the sandbox ran
  (`Pipeline.ProofOutlivesDeletion`); `Pipeline.GateOrder` says what still holds.
* A stage can be reported completed while its last execution runs (`ScanRunTheorems.CompletedWhileRunning`,
  `ScanRunTheorems.FinishShowsLastIff`), and deleting a run under an open call leaves a stage behind
  (`ScanRunTheorems.OrphanStage`, `ScanRunTheorems.FinishFitsIff`).
* Query parameterization does not always keep the query's text. Fields with a format, fields inside quotes and
  question marks outside them spoil an f-string, and nothing else does
  (`PatchQuery.FStringParameterizationIff`). For a query variable the search takes every value assigned or
  added in the function, or its one f-string, whatever runs: it drops text passed in
  (`PatchSearch.ParameterDropped`), annotated assignments (`PatchSearch.AnnotatedMissed`) and what is added to
  an f-string (`PatchSearch.TailDropped`), and takes text from after the query (`PatchSearch.LaterFound`) and
  from a branch not taken (`PatchSearch.BranchFound`). When it is right is stated exactly in
  `PatchConcatenation.QueryKeptIff`, `PatchSearch.NameKeptIff` and `PatchSearch.CollectedKeptIff`. A literal
  that is just a `?` makes the patch raise (`PatchConcatenation.MarkLiteralRaises`).
* A fingerprint joins its fields with bars that a normal form may hold too; this matters for one odd pair of
  snippets only (`Signature.SignatureIff`, `Signature.BarCollision`).
* A patch applied twice is usually refused, but not when it completes a bare carriage return above it
  (`PatchLines.SeamReapplied`, `PatchLines.SecondApplicationIff`).

## Model

| member | source | states |
|---|---|---|
| TaintEngine.DedupeKeepsSteps | backend/app/scan/taint_engine.py:90-100 | merging keeps exactly the given steps, none twice, the first still first |
| TaintEngine.DedupeKeepsFirstOccurrenceOrder | backend/app/scan/taint_engine.py:90-100 | merged steps stand in the order in which they first occur |
| TaintEngine.MergeSteps | backend/app/scan/taint_engine.py:90-100 | the one-pass merge with a set of seen steps computes the duplicate-free union in first-occurrence order |
| TaintEngine.KindIsFirst | backend/app/scan/taint_engine.py:103-107 | the merged origin is that of the first part that comes from a request, or of the first part if none does |
| TaintOrigins.TaintExplained | backend/app/scan/taint_engine.py:276-392 | the taint of any expression is told by the sources that reach it, listed without merging: it has one exactly if there is a source, its kind is that of the first source from a request or else of the first source, its path starts at the first source, and its steps are those of all parts and of the expressions above them |
| TaintFindings.StatementTold | backend/app/scan/taint_engine.py:145-272 | each kind of statement turns the sources told for every name into those of the map after it, and its reports into its findings: an assignment takes the value's sources over, an augmented one keeps the name's own, a loop target takes those of the iterable |
| TaintFindings.BlockTold | backend/app/scan/taint_engine.py:131-218 | the same for any block, from any map |
| TaintFindings.FindingsTold | backend/app/scan/taint_engine.py:396-492 | a file's findings are its reports, one by one and in order: of a kind from a request exactly if a source that reaches the sink expression is from a request, then of the first such, and otherwise of the kind of the source at which the path starts; source line and steps are those of the sources and of what they went through |
| TaintCalls.CollectedIsMet | backend/app/scan/taint_engine.py:71-87 | the calls checked for an expression are exactly those met on the way down from left to right, nested lambdas left out |
| TaintPass.FileContext.CheckSinks | backend/app/scan/taint_engine.py:396-418 | the finding list grows by one report per unsanitized sink call whose sink expression is tainted, in source order |
| TaintPass.FileContext.CheckCall | backend/app/scan/taint_engine.py:403-418 | one call is reported or passed over as the rule's predicates say |
| TaintPass.FileContext.ApplyAssign | backend/app/scan/taint_engine.py:222-272 | the dict updated in place is the walk's map after the assignment: a tainted value taints each name target, an untainted one removes nothing |
| TaintPass.FileContext.AssignEach | backend/app/scan/taint_engine.py:269-272 | only name targets are bound, one after the other |
| TaintPass.FileContext.AnalyzeBlock | backend/app/scan/taint_engine.py:131-143 | the statement loop computes the walk of the block, map and findings |
| TaintPass.FileContext.ApplyStmt | backend/app/scan/taint_engine.py:145-218 | each kind of statement updates map and findings as the walk does |
| TaintPass.FileContext.ApplyConditional | backend/app/scan/taint_engine.py:157-164 | both branches start from the state before the test and are merged over it |
| TaintPass.FileContext.ApplyFor | backend/app/scan/taint_engine.py:166-182 | a tainted iterable taints the name targets before the body is walked once |
| TaintPass.FileContext.ApplyTry | backend/app/scan/taint_engine.py:184-191 | body, else, finally, then the handlers, each from what has accumulated |
| TaintPass.FileContext.ApplyHandlers | backend/app/scan/taint_engine.py:186-191 | the handlers accumulate one after the other |
| TaintPass.AnalyzeFile | backend/app/scan/taint_engine.py:117-127 | a file is one block walked from no taint; one that does not parse gives no findings |
| TaintNames.BlockProjects | backend/app/scan/taint_engine.py:131-272 | which names end up tainted and which sinks are flagged depends on the names the walk starts from and on nothing else |
| TaintNames.BlockMonotone | backend/app/scan/taint_engine.py:131-218 | the walk is inflationary and monotone in names and in flagged sinks |
| TaintNames.StmtMonotone | backend/app/scan/taint_engine.py:145-218 | the same for every kind of statement |
| TaintSoundness.ExpressionCovered | backend/app/scan/taint_engine.py:276-418 | whatever an expression can hit or carry at run time, the analysis of it flags and sees |
| TaintSoundness.TaintSound | backend/app/scan/taint_engine.py:131-272 | for every program without loops and `finally` and every run of it, stopped or cut short by an exception anywhere: each tainted variable is in the walk's result and each sink hit with tainted input was reported |
| TaintSoundness.CoveredWalkIsSound | backend/app/scan/taint_engine.py:131-272 | the same for any program whose loops and `finally` blocks gain nothing when walked again |
| TaintSoundness.FunctionSound | backend/app/scan/taint_engine.py:467-492 | any call of a function, with any of its poisoned parameters tainted, hits only sinks reported at its definition |
| TaintPasses.PassesConverge | backend/app/scan/taint_engine.py:131-218 | repeated walks stop growing within as many rounds as the block assigns names not tainted yet |
| TaintPasses.IteratedWalkIsSound | backend/app/scan/taint_engine.py:131-218 | after that many walks one more covers every run of any program, loops and `finally` included |
| TaintPasses.RoundsCoveredByPasses | backend/app/scan/taint_engine.py:157-182 | k + 1 rounds of a loop body are covered by k + 1 successive walks over it |
| TaintPasses.LoopElseMissed | backend/app/scan/taint_engine.py:157-164 | a loop whose `else` uses what its body read is not reported, though a run reaches the sink |
| TaintPasses.SecondRoundMissed | backend/app/scan/taint_engine.py:157-164 | taint carried from one round to the next is not reported, though a run reaches the sink |
| TaintPasses.FinallyAfterHandlerMissed | backend/app/scan/taint_engine.py:184-191 | taint a handler leaves for the `finally` block is not reported, though a run reaches the sink |
| TaintLimits.SecondWalkTells | backend/app/scan/taint_engine.py:131-218 | for any program, one walk finds every name and sink that any number of walks find exactly if the second walk finds nothing new |
| TaintLimits.SecondWalkEnsures | backend/app/scan/taint_engine.py:131-218 | and then the one walk covers every run, loops and `finally` included |
| TaintLimits.ClearedEachRound | backend/app/scan/taint_engine.py:157-164 | the converse fails for a loop that overwrites what it read before the next round: one walk covers every run, a second one would report more |
| TaintLimits.TestedOnly | backend/app/scan/taint_engine.py:184-191 | and for a `finally` block after a handler that binds a conditional with a tainted test only |
| TaintProvenance.TaintOfTraced | backend/app/scan/taint_engine.py:276-392 | the taint of any expression has steps that begin with a source and contain no sink |
| TaintProvenance.BlockSane | backend/app/scan/taint_engine.py:131-272 | everything held or reported by a walk is traced: a report's path begins at a source and ends with its only sink |
| TaintProvenance.StatementSane | backend/app/scan/taint_engine.py:145-218 | the same for every kind of statement |
| TaintProvenance.JoinKeepsSources | backend/app/scan/taint_engine.py:90-100 | the source steps of merged taint are exactly those of the parts merged |
| TaintProvenance.JoinListsOnce | backend/app/scan/taint_engine.py:90-100 | a merged path lists each step of its parts once, in the order of first occurrence, before its own |
| TaintProvenance.TwoSources | backend/app/scan/taint_engine.py:317-326 | adding two different source calls gives a path with both sources |
| GraphSearch.DfgByPrefix | backend/app/prepare/cpg/models.py:53-79 | an edge type belongs to the data-flow layer exactly when its name starts with `dfg_` |
| GraphSearch.EdgesFrom | backend/app/prepare/cpg/models.py:130-136 | exactly the outgoing edges of a node, of one type if one is asked for |
| GraphSearch.EdgesFromIff | backend/app/prepare/cpg/models.py:130-136 | asked for no type, all edges that leave the node; asked for one, those of that type |
| GraphSearch.EdgesInOrder | backend/app/prepare/cpg/models.py:130-136 | in the order of the graph's edge list |
| GraphSearch.SearchComplete | backend/app/prepare/cpg/models.py:146-167 | an empty queue with the target never expanded means no short path ends at the target |
| GraphSearch.Turn | backend/app/prepare/cpg/models.py:157-166 | one turn of the queue keeps its depth order and the account of all nodes still to be reached |
| GraphSearch.DfgReachability | backend/app/prepare/cpg/models.py:146-167 | true if and only if a path of data-flow edges with at most `max_depth` edges exists, on any finite graph; the loop terminates |
| Matching.GreedyConsistent | backend/app/benchmark/matcher.py:69-80 | partners are pairwise different and the free positions are exactly those nobody took |
| Matching.GreedyMaximal | backend/app/benchmark/matcher.py:69-80 | nothing related is left over on both sides |
| Matching.GreedyIsHalfOptimal | backend/app/benchmark/matcher.py:69-80 | no one-to-one matching at all has more than twice as many pairs |
| Matcher.RemoveFirstAt | backend/app/benchmark/matcher.py:78 | removing by value removes the chosen occurrence, as no equal element stands before it |
| Matcher.SameTells | backend/app/benchmark/matcher.py:31-43 | findings are the same only in one file and of one type, on lines within the tolerance or in functions of one non-empty name, and in either order |
| Matcher.MatchesTells | backend/app/benchmark/matcher.py:45-57 | a finding matches a case of its file and type if the source or the sink is within the tolerance or the function is the one named, and not otherwise |
| Matcher.FindPartner | backend/app/benchmark/matcher.py:71-73 | the first remaining finding that is the same, and where it stands |
| Matcher.MatchCrossTool | backend/app/benchmark/matcher.py:61-80 | the loop over shrinking lists computes greedy matching on positions |
| Matcher.SelectSplits | backend/app/benchmark/matcher.py:61-80 | as multisets, ours is shared plus ours_only |
| Matcher.TheirsConserved | backend/app/benchmark/matcher.py:61-80 | as multisets, theirs is the chosen partners plus theirs_only |
| Matcher.CrossToolGuarantee | backend/app/benchmark/matcher.py:36-43 | as multisets ours is shared plus ours_only and theirs is the partners plus theirs_only, each shared finding stands with a partner that is the same, no leftovers match, and no matching could share more than twice as many findings |
| Matcher.FindCase | backend/app/benchmark/matcher.py:105-113 | the first unconsumed case a finding matches |
| Matcher.ClassifyNext | backend/app/benchmark/matcher.py:104-129 | one finding consumes the first vulnerable case it matches or becomes a false positive, as greedy matching does |
| Matcher.Classify | backend/app/benchmark/matcher.py:84-131 | matched ids and false positives are those of greedy matching of the findings against the vulnerable cases |
| Matcher.ClassifyGuarantee | backend/app/benchmark/matcher.py:84-131 | TP + FP is the number of findings and TP + FN that of the vulnerable cases, no false positive matches a missed case, TP is at least half of what any assignment reaches |
| Metrics.Round4 | backend/app/benchmark/metrics.py:29 | rounding moves a ratio by at most half a ten-thousandth and keeps zero and sign |
| Metrics.Round4Rounds | backend/app/benchmark/metrics.py:29 | it is the nearest number of four decimals, a tie going to the even last digit |
| Metrics.RoundedOnce | backend/app/benchmark/metrics.py:29 | and there is only one such number |
| Metrics.RatioIs | backend/app/benchmark/metrics.py:26-29 | a share of nothing is none; any other is the rounded quotient |
| Metrics.F1Is | backend/app/benchmark/metrics.py:48-51 | F1 is the rounded harmonic mean where there are a precision and a recall that are not both zero, and none otherwise |
| Metrics.HarmonicShift | backend/app/benchmark/metrics.py:49-51 | moving precision and recall up by at most d moves their harmonic mean up by at most 2d |
| Metrics.ReportedF1IsClose | backend/app/benchmark/metrics.py:26-51 | a reported F1 is within 0.00015 of 2TP / (2TP + FP + FN) |
| Metrics.WithheldF1IsSmall | backend/app/benchmark/metrics.py:49-51 | with a true positive present, F1 is withheld only when its exact value is next to nothing |
| Metrics.ComputeMetrics | backend/app/benchmark/metrics.py:32-62 | the reported numbers add up to the findings and to the vulnerable cases for any fixture; precision, recall and F1 are their rounded ratios and harmonic mean, or none without findings, without cases, or with no hit; with distinct case ids the hits are those of greedy matching |
| Fingerprint.NormalizeTokens | backend/app/dedup/fingerprint.py:67-85 | the index loop produces the normal parts, an attribute name together with its dot |
| Fingerprint.NormalizeSnippet | backend/app/dedup/fingerprint.py:54-86 | the parts joined with blanks, nothing for a blank snippet, a fixed word for one that does not tokenize |
| Fingerprint.RenamingInvisible | backend/app/dedup/fingerprint.py:15-29 | comments, line ends and indentation, literals, and names not right after a dot leave the normal form alone |
| Fingerprint.NothingElseInvisible | backend/app/dedup/fingerprint.py:15-29 | equal normal forms mean the same tokens up to that, layout tokens left out and the names right after a dot kept |
| Fingerprint.FormOfOne | backend/app/dedup/fingerprint.py:54-86 | what shows of one token of each kind, and of a snippet that is blank or cannot be read |
| Fingerprint.FormOfAttribute | backend/app/dedup/fingerprint.py:72-79 | an attribute name shows with its dot |
| Fingerprint.JoinedByBlanks | backend/app/dedup/fingerprint.py:86 | parts are set apart by one blank each |
| Signature.SignatureIff | backend/app/dedup/fingerprint.py:92-107 | two findings have one signature exactly when type, categories, steps and the structure of both snippets agree, or when one source snippet is empty and the other a single bar that has moved |
| Signature.BarCollision | backend/app/dedup/fingerprint.py:98-107 | two findings of different structure with the same signature |
| DedupService.DeduplicationService.FillBuckets | backend/app/dedup/service.py:67-74 | every finding lands in the bucket of its fingerprint, in order, and no other, and the buckets stand in the order in which their fingerprints first occur |
| DedupService.DeduplicationService.CollectMembers | backend/app/dedup/service.py:81-88 | earlier members that were not resubmitted and still exist are read back from the store |
| DedupService.DeduplicationService.Regroup | backend/app/dedup/service.py:80-103 | the group made for one bucket is that of its new and surviving members |
| DedupService.DeduplicationService.RegroupAll | backend/app/dedup/service.py:76-105 | the registry with the groups of all buckets, and those groups in the order of the buckets |
| DedupService.DeduplicationService.Deduplicate | backend/app/dedup/service.py:64-122 | the registry becomes the specified one, and the result lists exactly the groups touched, in the order in which their fingerprints first occur, with counts that add up |
| DedupService.EarlierPrintsFirst | backend/app/dedup/service.py:67-80 | the fingerprints of any initial part of a batch come before all others in that order |
| DedupService.DeduplicationService.RemainsIn | backend/app/dedup/service.py:180-197 | what a deletion leaves of a group: all of it, nothing, or the members still stored |
| DedupService.DeduplicationService.RemoveFindings | backend/app/dedup/service.py:164-220 | entry by entry, the registry becomes the specified one |
| DedupGroups.RepresentsUnique | backend/app/dedup/service.py:64-122 | a set of stored findings has only one registry that represents its grouping |
| DedupGroups.SortSorts | backend/app/dedup/service.py:89 | members are in order of id and the same findings as before |
| DedupTheorems.DedupKeepsGrouping | backend/app/dedup/service.py:64-122 | a submission turns the grouping of some findings into the grouping of those and the submitted ones |
| DedupTheorems.RemoveKeepsGrouping | backend/app/dedup/service.py:164-220 | deleting findings from the store and then from the registry gives exactly the grouping of the survivors |
| DedupTheorems.UntouchedGroupsStay | backend/app/dedup/service.py:183-184 | groups none of whose members are deleted stay exactly as they were |
| DedupTheorems.DedupKeepsGroupingIff | backend/app/dedup/service.py:64-122 | for findings of the store a submission keeps the grouping exactly if it names no id twice |
| DedupTheorems.RunGroups | backend/app/dedup/service.py:11-16 | after any run of discoveries, submissions and deletions in which no submission names an id twice, the registry is the one-shot grouping of what is live |
| DedupTheorems.StoreHoldsLatest | backend/app/validate/store.py:42-44 | in a run the store holds of each id the finding discovered last, unless it was deleted since |
| DedupTheorems.RunGroupsIff | backend/app/dedup/service.py:11-16 | in any run it is so at every point exactly if no submission names an id twice |
| DedupTheorems.IncrementalEqualsBatch | backend/app/dedup/service.py:11-16 | runs without repeated ids that have the same store and the same live findings end with the same registry, however the submissions were ordered and split |
| DedupTheorems.OneGroupEachIff | backend/app/dedup/service.py:6-9 | after a submission each finding is in at most one group exactly if no resubmitted finding is stranded under an old fingerprint |
| DedupTheorems.ChangedFindingListedTwice | backend/app/dedup/service.py:80-105 | a finding whose fingerprint changed and that is submitted again is listed in two groups |
| PatchQuery.BindsIffCounts | backend/app/remediation/patches.py:134-145 | parameters bind exactly when there are as many as placeholders, whether a driver looks for them anywhere or outside quotes only |
| PatchQuery.KeepsIff | backend/app/remediation/patches.py:134-145 | binding the template of one text gives another text for all values exactly when a driver reads the template, placeholder by placeholder, as that text |
| PatchQuery.DecomposeFString | backend/app/remediation/patches.py:166-187 | the loop yields the template and parameters of the f-string, or nothing if it has a part that is neither literal nor value |
| PatchQuery.FStringCounts | backend/app/remediation/patches.py:166-187 | there are as many question marks as parameters and question marks of the literals together |
| PatchQuery.FStringParameterizationIff | backend/app/remediation/patches.py:112-114 | binding rebuilds the f-string's text for all values exactly when no field has a conversion or format, every field stands where a driver sees a placeholder, and no question mark of the literals does |
| PatchQuery.FStringAnywhereIff | backend/app/remediation/patches.py:112-114 | for a driver that takes every question mark and fields without format: exactly when no literal holds one |
| PatchQuery.QuotedFieldLost | backend/app/remediation/patches.py:166-187 | a field inside quotes is not kept by a driver that minds them |
| PatchConcatenation.ResolveConcatenation | backend/app/remediation/patches.py:265-285 | the loops over the values found yield their segments in order, or nothing as soon as one part is neither literal nor variable |
| PatchConcatenation.BuildTemplate | backend/app/remediation/patches.py:115-125 | template and parameters are those of the segments, a literal that is just `?` counting as a parameter |
| PatchConcatenation.ConcatPartsText | backend/app/remediation/patches.py:210-218 | flattening an addition tree keeps its text |
| PatchConcatenation.ValuesResolve | backend/app/remediation/patches.py:265-285 | the values found resolve exactly if all are sums of literals and variables, and the segments then spell them one after the other |
| PatchConcatenation.QueryKeptIff | backend/app/remediation/patches.py:115-145 | for any template and any statements run: the variable's text is rebuilt for all values, and whatever it held before, exactly when it has been assigned and a driver reads the template as what was put into it since |
| PatchConcatenation.ConcatenationParameterizedIff | backend/app/remediation/patches.py:241-285 | for any assignments, all of them found and the query executed after some of them: exactly when they can be parameterized, the variable has been assigned by then, and all from before its last plain assignment and all from after the query is empty |
| PatchConcatenation.ParameterizableAnywhere | backend/app/remediation/patches.py:115-125 | for a driver that takes every question mark, what can be parameterized is what holds none in its literals |
| PatchConcatenation.ConcatenationParameterized | backend/app/remediation/patches.py:265-285 | one plain assignment first and augmented ones up to the query: the text is rebuilt, and the counts agree |
| PatchConcatenation.IncomingTextDropped | backend/app/remediation/patches.py:244-261 | with augmented assignments only, any text the variable held before is lost |
| PatchConcatenation.LaterTextTaken | backend/app/remediation/patches.py:244-261 | any text put in after the query comes into the template |
| PatchConcatenation.MarkLiteralRaises | backend/app/remediation/patches.py:118-136 | the empty text is parsed as an argument, and the patch raises, exactly when some literal is just a `?` |
| PatchSearch.FindFStrings | backend/app/remediation/patches.py:190-204 | the walk finds every f-string assigned to the name, in any scope, in order |
| PatchSearch.ResolveAssignedFString | backend/app/remediation/patches.py:190-207 | the f-string is used only if there is exactly one |
| PatchSearch.Collect | backend/app/remediation/patches.py:244-261 | the search collects the assigned and added values in order, stops beside another augmented assignment, skips nested scopes inside a function, and passes over other bindings |
| PatchSearch.CollectedInOrder | backend/app/remediation/patches.py:244-261 | values beside each other are collected in order |
| PatchSearch.CollectedUpTo | backend/app/remediation/patches.py:244-261 | and nothing after another augmented assignment of the variable beside them |
| PatchSearch.CollectedNested | backend/app/remediation/patches.py:244-261 | nested statements are collected in their place, scopes only outside functions, and what ends the search among them ends it only there |
| PatchSearch.ResolveAssigned | backend/app/remediation/patches.py:241-285 | the segments of all it collects, or nothing if it collects nothing or meets a part it cannot take |
| PatchSearch.NameTemplate | backend/app/remediation/patches.py:89-132 | the template for a query variable: that of its one f-string with a field, else that of the values collected, or none |
| PatchSearch.NameWordIs | backend/app/remediation/patches.py:89-132 | the one assigned f-string with a field comes first, refused only for a piece that cannot be decomposed; otherwise all values found, if there are any and all can be taken apart |
| PatchSearch.NameKeptIff | backend/app/remediation/patches.py:89-132 | on straight-line code, with annotated and tuple assignments run and not found: the exact condition for the query's text to be kept |
| PatchSearch.CollectsPlain | backend/app/remediation/patches.py:244-261 | without such bindings and nested scopes the search collects exactly what runs |
| PatchSearch.CollectedKeptIff | backend/app/remediation/patches.py:103-125 | then the condition in terms of the statements before and after the query |
| PatchSearch.AssignedFStringKeptIff | backend/app/remediation/patches.py:97-102 | with the one f-string assigned first: its own condition, and all that is added before the query is empty |
| PatchSearch.ParameterDropped | backend/app/remediation/patches.py:244-261 | a query variable that is a parameter loses the text passed in |
| PatchSearch.AnnotatedMissed | backend/app/remediation/patches.py:244-261 | an annotated assignment is not found and its text is lost |
| PatchSearch.LaterFound | backend/app/remediation/patches.py:244-261 | text added after the query is put into it |
| PatchSearch.BranchFound | backend/tests/fixtures/concat_sql_app/app.py:32-36 | text of a branch not taken is put into the query |
| PatchSearch.TailDropped | backend/app/remediation/patches.py:190-207 | text added to an assigned f-string is lost |
| PatchSearch.QuotedVariableLost | backend/tests/fixtures/concat_sql_app/app.py:16 | a variable inside quotes is not kept by a driver that minds them |
| PatchLines.JoinSplit | backend/app/remediation/patches.py:447-475 | splitting into lines with their ends and joining again is the identity |
| PatchText.LineShape | backend/app/remediation/patches.py:447 | every line of a split text is ended by its last character or by a return and a newline, holds no other character that ends lines, and only the last one may be without end |
| PatchText.RstripIs | backend/app/remediation/patches.py:451 | what is left of a line without its trailing returns and newlines, all of them |
| PatchText.IndentIs | backend/app/remediation/patches.py:457 | the indentation is the leading blanks and tabs, all of them |
| PatchText.StripIs | backend/app/remediation/patches.py:467 | stripping takes the blank characters off both ends, all of them and nothing else |
| PatchText.ClosingBracketIff | backend/app/remediation/patches.py:467 | a closing line is one closing bracket among blank characters |
| PatchLines.SplitAppend | backend/app/remediation/patches.py:447 | texts that do not run into each other split independently |
| PatchLines.ApplyProposal | backend/app/remediation/patches.py:439-483 | the edit by moving end index and list splice computes the patched text or the refusal |
| PatchLines.PatchRefused | backend/app/remediation/patches.py:445-483 | why a patch is refused: without a fix, for a line outside the file, for a changed line, or for an outcome that does not parse, each exactly then |
| PatchLines.EndOfRun | backend/app/remediation/patches.py:457-470 | the loop finds the end of the replaced run |
| PatchLines.RunShape | backend/app/remediation/patches.py:459-470 | the replaced run is deeper-indented non-blank lines, then at most one closing bracket, and goes no further |
| PatchLines.PatchFrame | backend/app/remediation/patches.py:439-483 | on success the anchor line was the expected one and everything outside the replaced run is kept character for character |
| PatchLines.ImportFrame | backend/app/remediation/patches.py:486-499 | with an import the same text has one line more, at the place the parser gives or at the end of a shorter text |
| PatchLines.SecondApplicationRefused | backend/app/remediation/patches.py:451-456 | a patch whose first line differs from the anchor is refused the second time unless its leading newline completes a bare return |
| PatchLines.SecondApplicationIff | backend/app/remediation/patches.py:447-456 | a second application finds its anchor gone exactly if what the first put at that line number does not begin with the anchor line |
| PatchLines.SeamReapplied | backend/app/remediation/patches.py:471-475 | a patch that completes a bare return is not refused for a changed source |
| Approval.LatestIsNewest | backend/app/approval/store.py:48-54 | the request found is the finding's newest, and none is found only if there is none |
| Approval.FirstActiveIsActive | backend/app/approval/store.py:56-66 | an active request for finding and action is found exactly if there is one |
| Approval.RequestKeepsConsistent | backend/app/approval/service.py:90-145 | a request call keeps: at most one active request per finding and action, trails linked from creation to the current status, version one more than the resubmissions |
| Approval.DecisionKeepsConsistent | backend/app/approval/service.py:233-285 | so does a transition: each approval, rejection and request for changes then directly follows a pending event, each later pending event a request for changes |
| Approval.DecisionAcceptedIff | backend/app/approval/service.py:233-285 | a decision is accepted exactly if the request is known, the time has a zone, and a pending request gets another status or one sent back for changes gets pending again; what it then leaves, field by field |
| Approval.DecisionRefused | backend/app/approval/service.py:241-251 | why a decision is refused |
| Approval.RequestMadeIff | backend/app/approval/service.py:90-145 | a request is made exactly if none is open for the finding and action, the newest is not decided or may be repeated, and the verdict and proof the policy asks for are there; what it then leaves |
| Approval.RequestRefused | backend/app/approval/service.py:98-184 | why a request is refused: a decision first, then the verdict, then the proof, then the time |
| Approval.ActionAllowedIff | backend/app/approval/service.py:292-301 | an action is allowed exactly if the trail ends with the approval of a pending request and the policy lists it |
| Approval.RemovalKeepsConsistent | backend/app/approval/store.py:82-95 | so does removing findings |
| Approval.RemovedTwice | backend/app/approval/store.py:82-95 | removing findings one after another removes them together |
| Approval.HistoryInvariant | backend/app/approval/service.py:44-52 | all of this holds after any sequence of whole calls, under any policy of each call |
| Approval.HistoryOnlyGrows | backend/app/approval/service.py:233-285 | over any part of a run without its deletion a trail only grows and a decision is final |
| Approval.NeverASecondRequest | backend/app/approval/service.py:108-114 | with re-requests off and one action in use, no finding ever has two requests, calls being whole |
| Approval.ReRequestGateIff | backend/app/approval/service.py:108-114 | the gate does as documented exactly when the finding's newest request is for this action, or there is none, or it is decided just if this action was ever requested |
| Approval.DecisionHidden | backend/app/approval/service.py:108-114 | behind a newer open request for the other action a decided action is asked for again |
| Approval.DecisionHiddenReachable | backend/app/approval/service.py:90-145 | two requests from the empty store lead to such a state |
| Approval.WrongRefusal | backend/app/approval/service.py:108-114 | behind a newer decided request for the other action an action never asked for is refused |
| Approval.WrongRefusalReachable | backend/app/approval/service.py:90-145 | one request and its decision lead from the empty store to such a state |
| ApprovalRaces.ConsistentIff | backend/app/approval/service.py:90-145 | with checks and saves interleaved in any way, the history has been consistent up to a moment just if every save still found what its check saw: no active request come up, or the request in the same status and review cycle |
| ApprovalRaces.SaveHasOwnCheck | backend/app/approval/service.py:90-285 | every save rests on a check of its own call, with no other save of it since |
| ApprovalRaces.TwoActive | backend/app/approval/service.py:98-131 | two requests that both check before either saves leave two active ones |
| ApprovalRaces.ApprovalOverruled | backend/app/approval/service.py:233-285 | two decisions that both check before either saves turn an approval into a rejection |
| ApprovalService.ApprovalStore.Save | backend/app/approval/store.py:37-46 | a saved request replaces the one of its id in place or comes last |
| ApprovalService.ApprovalStore.RecordEvent | backend/app/approval/store.py:68-77 | the trail of the request grows by the event, all others stay |
| ApprovalService.ApprovalStore.FindForFinding | backend/app/approval/store.py:48-54 | the scan finds the newest request, the first of equally new ones |
| ApprovalService.ApprovalStore.FindActive | backend/app/approval/store.py:56-66 | the scan finds the first active request |
| ApprovalService.ApprovalStore.RemoveFinding | backend/app/approval/store.py:82-95 | requests and trails of the finding go, all others stay in order |
| ApprovalService.ApprovalService.CheckEligibility | backend/app/approval/service.py:154-184 | refused for the first of the policy's conditions that fails |
| ApprovalService.ApprovalService.RequestApproval | backend/app/approval/service.py:90-145 | answer and store are the specified ones and the store stays consistent |
| ApprovalService.ApprovalService.Transition | backend/app/approval/service.py:233-285 | answer and store are the specified ones, the store stays consistent, and the answer is a success exactly for a known request, a time with a zone, and a step from pending to another status or from changes requested to pending |
| ApprovalService.ApprovalService.ApplyDecision | backend/app/approval/service.py:233-285 | its steps on any store: the request replaced and the event recorded, or the first reason against it |
| ApprovalService.ApprovalService.IsActionAllowed | backend/app/approval/service.py:292-301 | true exactly for an approved request whose action the policy allows |
| Pipeline.RunKeepsBook | backend/app/approval/service.py:44-52 | the approval store stays consistent in every run of the whole pipeline |
| Pipeline.VerdictOrigin | backend/app/api/routes/validations.py:66-96 | a true-positive verdict on record was recorded by a validation since the finding's last deletion |
| Pipeline.ProofOrigin | backend/app/prove/service.py:55-62 | a verified proof on record was recorded since the last deletion by a call that had passed its gate, on a true-positive verdict, some time before |
| Pipeline.RequestOrigin | backend/app/approval/service.py:154-184 | an approval request on record was made while verdict and proof both held, since the last deletion |
| Pipeline.ApprovalOrigin | backend/app/approval/service.py:233-285 | an approved request was approved, since the last deletion and after it was made, by a decision that found it pending |
| Pipeline.RecordOrigin | backend/app/remediation/service.py:118-165 | a remediation record was proposed since the last deletion |
| Pipeline.GateOrder | backend/app/remediation/service.py:167-228 | in every run, a successful apply was confirmed and preceded by a validation, then the gate of a proof, then the proof's recording, then a remediation request made while a verdict and the proof both held, then its approval; no deletion came after that verdict or the recording, and none after the first validation unless it fell between gate and recording |
| Pipeline.ProofOutlivesDeletion | backend/app/api/routes/proofs.py:143-152 | a deletion between gate and recording leaves a verified proof of a finding that is not stored and has no verdict |
| Pipeline.ProposalOrder | backend/app/remediation/service.py:118-165 | and by a proposal that was itself made only after all of these |
| Pipeline.AppliesAreSeparated | backend/app/remediation/service.py:182-196 | between two successful applies for a finding there is a proposal, a verification or a deletion |
| Pipeline.CheckedWasApplied | backend/app/remediation/service.py:230-266 | a status applied, verified or still_present follows an apply with no newer proposal or deletion |
| Pipeline.VerdictOnFix | backend/app/remediation/service.py:230-266 | a status verified or still_present is what the latest recheck found, with no newer patch, proposal or deletion |
| PipelineRecords.ProposalInRecord | backend/app/remediation/service.py:134-228 | a record holds the latest proposal since the last deletion and the id of the approval that opened its gate; status and error are what its last change says, and after a proposal without an automatic fix there is none |
| PipelineRecords.TimesTold | backend/app/remediation/service.py:134-266 | its times are those of the first proposal and of the last patch and the last recheck since the last deletion, with that recheck's result |
| PipelineRecords.PatchIsOfLatestProposal | backend/app/remediation/service.py:167-228 | every successful apply is of the latest proposal, which came after any deletion and offered an automatic fix; the record then holds that very proposal and the id of the approval that opened its gate |
| PipelineOffers.StaysCleared | backend/app/remediation/service.py:59-76 | once an approval has opened the gate of a finding, no request and no decision closes it again |
| PipelineOffers.NextPatchIff | backend/app/remediation/service.py:167-228 | after a successful proposal and any steps but work on that fix or a deletion of the finding, a confirmed patch that fits is applied exactly if the proposal offers an automatic fix, and any patch is refused for the lack of one otherwise |
| PipelineAnswers.ProofLetInIff | backend/app/prove/service.py:55-62 | in any run a proof is let in exactly for a stored finding with a true-positive verdict; each refusal has its one reason, and a validation of another finding is never it |
| PipelineAnswers.ForeignValidation | backend/app/prove/service.py:55-62 | only a store that held a validation of another finding would be answered so |
| PipelineAnswers.ValidationAnswer | backend/app/api/routes/validations.py:66-96 | only stored findings are validated, and the verdict on record becomes the one the provider gives, if it gives one |
| PipelineAnswers.RequestAnswer | backend/app/api/routes/approval.py:130-160 | a stored finding's request is answered if one of its kind is open or a new one may be made, which is then pending in the store |
| PipelineAnswers.DecisionAnswer | backend/app/api/routes/approval.py:89-127 | a decision succeeds exactly as the approval service accepts it, and the request then has its status |
| PipelineAnswers.ProposalAnswer | backend/app/remediation/service.py:118-133 | why a proposal is refused, in the order of its gates |
| PipelineAnswers.PatchAnswer | backend/app/remediation/service.py:167-213 | why a patch is refused, in the order of its gates |
| PipelineAnswers.RecheckAnswer | backend/app/remediation/service.py:230-247 | why a recheck is refused |
| PipelineAnswers.RefusalChangesNothing | backend/app/remediation/service.py:167-213 | a refusal changes nothing, except that a misfit is put on record and that a validation call ends without a verdict |
| PipelineRoute.FixReachable | backend/app/remediation/service.py:118-266 | for every finding and patch there is a run from the empty stores through all gates to a verified fix |
| Pipeline.DeletedTwice | backend/app/api/routes/projects.py:273-279 | deleting findings one by one deletes them together |
| PipelineService.Stores.RegisterFinding | backend/app/validate/store.py:40-42 | a scanned finding is stored once under its id |
| PipelineService.Stores.BeginValidation | backend/app/api/routes/validations.py:66-74 | only a stored finding is validated |
| PipelineService.Stores.RecordValidation | backend/app/api/routes/validations.py:88-96 | a verdict is recorded if the provider answers |
| PipelineService.Stores.BeginProof | backend/app/api/routes/proofs.py:109-150 | a proof is begun only behind the verdict gate |
| PipelineService.Stores.RecordProof | backend/app/api/routes/proofs.py:151 | its outcome is recorded when the sandbox is done, whatever has become of the finding |
| PipelineService.Stores.AskApproval | backend/app/api/routes/approval.py:130-160 | the approval store changes as a request under the default policy does, for stored findings only |
| PipelineService.Stores.DecideApproval | backend/app/api/routes/approval.py:89-127 | the approval store changes as the transition does |
| PipelineService.Stores.RequireApprovedApproval | backend/app/remediation/service.py:59-76 | the newest request of any action must be an approved one for remediation; else the first reason against it |
| PipelineService.Stores.ProposeFix | backend/app/remediation/service.py:118-165 | a proposal replaces or makes the record, in the order of the gates, and leaves it proposed exactly if it has an automatic fix |
| PipelineService.Stores.ApplyFix | backend/app/remediation/service.py:167-228 | applied, failed or refused for the first gate that is closed; a misfit is recorded as an error |
| PipelineService.Stores.VerifyFix | backend/app/remediation/service.py:230-266 | verified or still present, only once applied |
| PipelineService.Stores.DeleteFindings | backend/app/api/routes/projects.py:273-279 | the cascade finding by finding removes every record of all of them at once |
| Sla.CheckSteps | backend/app/risk/service.py:120-177 | a check keeps the record sane and moving forward, and escalates exactly when it is active and due |
| Sla.ResolveSteps | backend/app/risk/service.py:179-191 | resolving keeps the record sane and moving forward, and a second resolution at any time changes nothing |
| Sla.LifeMovesForward | backend/app/risk/service.py:97-191 | over any checks and resolutions at any times the status rank never falls, breach and resolution times are set once, a breach is at or after the deadline, and the events are exactly those the record calls for |
| Sla.EscalatesOnceIff | backend/app/risk/service.py:97-177 | an SLA started under a policy escalates at most once, exactly if its priority has a deadline there and some check finds the time of the start plus that duration passed before any resolution; the event is that of the first such check |
| Sla.LifeIsTold | backend/app/risk/service.py:97-191 | after any checks and resolutions every field of the record is what the policy at the start, the first check past the deadline, the first resolution and the last check make it |
| Sla.DefaultDeadlines | backend/app/risk/policies.py:17-23 | under the documented policy a check first escalates after four hours, one day, three days, seven days, and never |
| SlaHistory.StoreIsTold | backend/app/risk/service.py:266-338 | after any starts, checks, resolutions and removals each finding has exactly the record and the events its own calls give it: of the last start that changed its priority, due as the policy says, with the events of checks since the last removal but those whose record could not be written |
| SlaStore.SlaService.CheckAndPersist | backend/app/risk/service.py:266-301 | store and outcome after one check, for each way the database may fail |
| SlaStore.CheckAnswer | backend/app/risk/service.py:277-287 | nothing is found only without a record, and the answer is the record left |
| SlaStore.SlaService.StartSla | backend/app/api/routes/risk.py:161-168 | a record of the same priority is kept, else the new one is due when the policy says, or not applicable |
| SlaStore.SlaService.ResolveSla | backend/app/api/routes/risk.py:217-227 | the stored record is resolved |
| SlaStore.SlaService.RemoveFindingState | backend/app/risk/service.py:319-338 | record and events of the finding go |
| SlaStore.SlaService.EvaluateOnce | backend/app/risk/sla_evaluator.py:72-116 | the loop with its counters computes the cycle over some listing of the records |
| SlaStore.CycleIsPointwise | backend/app/risk/sla_evaluator.py:87-101 | each finding is treated on its own, whatever fails for the others |
| SlaStore.CycleCounts | backend/app/risk/sla_evaluator.py:82-116 | the counters are the numbers of findings listed, escalated without failure, skipped and failed |
| SlaStore.CleanCycle | backend/app/risk/sla_evaluator.py:72-116 | without failures no active record is left overdue, and the breach count is the number of trails that grew, each by the one event its record calls for |
| SlaStore.SecondCycleIdle | backend/app/risk/sla_evaluator.py:72-116 | a second cycle at the same time changes no record, appends no event and counts none |
| SlaStore.EventLostIff | backend/app/risk/service.py:282-286 | a cycle loses an event exactly if the record's row cannot be written when it breaches, and no later check makes up for it |
| SlaConcurrent.StepKeeps | backend/app/risk/service.py:266-287 | every step of every thread, every read and every write of a start or a resolution, and every removal keeps the invariant of lock, records and events |
| SlaConcurrent.AtMostOneEscalation | backend/app/risk/service.py:266-287 | in every interleaving no start of an SLA ever has two escalation events |
| SlaStarts.LifeHasStart | backend/app/risk/service.py:97-118 | in every interleaving each start's record is due at the time the start was read plus the policy's duration, or not applicable |
| SlaStarts.EventHasStartAndCheck | backend/app/risk/service.py:266-287 | and every event has such a start, whose deadline it names, and a check that came at or after it, at the time it gives |
| SlaRaces.MatchIff | backend/app/risk/service.py:266-287 | in any run, the records call for exactly their events at all times up to a moment just if every write up to it was harmless: no check that read a breached record and changed it wrote after a removal, and no resolution wrote that had read before the breach, or a breached record before a removal |
| SlaRaces.LevelCountsEvents | backend/app/risk/service.py:266-287 | while that lasts, and with no thread between a record's write and its event: the events of its start are exactly those its breach calls for and its level is their number |
| SlaConcurrent.EventMeansBreach | backend/app/risk/service.py:282-286 | an event is due exactly when the check found its record active and made it breached |
| SlaRaces.RecordsMoveForward | backend/app/risk/service.py:120-177 | while every write finds stored what was read for it, a record only moves forward |
| SlaRaces.BackwardsIff | backend/app/api/routes/risk.py:217-227 | a record goes backwards exactly when a check or a resolution writes a copy without the breach or the resolution of the one stored, or with another time of it |
| SlaLosses.ResolutionLost | backend/app/api/routes/risk.py:217-227 | a run from the start in which a check undoes a resolution |
| SlaLosses.BreachLost | backend/app/api/routes/risk.py:217-227 | a run in which a resolution that read before the breach leaves an event and a record never breached |
| SlaLosses.RemovalLeavesLevel | backend/app/risk/service.py:319-338 | a run in which a removal before a second check's write leaves a breached record with no events |
| ScanRuns.DeletedExactly | backend/app/scan/run_store.py:294-308 | deletion removes exactly the project's runs from every part of the store, and a second one changes nothing |
| ScanRuns.CountOfEnded | backend/app/scan/run_store.py:213-230 | ending an execution changes neither the number nor the order of entries, only the one entry |
| ScanRuns.Accounting | backend/app/scan/run_store.py:129-230 | for every interleaving of calls, unless a run is deleted under an open call: each stage's count is its number of entries, it is pending exactly without entries, and exactly the entries of open calls run |
| ScanRunTheorems.HistoryOnlyGrows | backend/app/scan/run_store.py:129-230 | entries keep their place and identity, and finished ones never change |
| ScanRunTheorems.CallLeavesOneEntry | backend/app/scan/run_service.py:73-114 | a call that returned or raised leaves exactly one entry: completed without an error if it returned, failed with the error it raised otherwise, with its begin and end |
| ScanRunTheorems.FinishedForGood | backend/app/scan/run_service.py:73-114 | a call finishes once |
| ScanRunTheorems.StageShowsLastExecution | backend/app/scan/run_models.py:65-75 | without overlap every stage record is that of its last execution, status, times and error |
| ScanRunTheorems.StageTellsEnding | backend/app/scan/run_store.py:166-211 | without overlap the stage then says how its last call ended until the next one begins: failed with the error exactly if it raised |
| ScanRunTheorems.RunIsLatest | backend/app/scan/run_store.py:75-87 | the store holds of each run what was recorded last, unless it was deleted since |
| ScanRunTheorems.FindingsAreThoseAdded | backend/app/scan/run_store.py:110-122 | the findings of a run are exactly those added since its last deletion |
| ScanRunTheorems.FinishShowsLastIff | backend/app/scan/run_store.py:166-211 | with overlap a finish leaves the last execution's status exactly if it is that execution's or the same |
| ScanRunTheorems.CompletedWhileRunning | backend/app/scan/run_store.py:166-185 | two overlapping calls leave a stage completed while its last execution runs |
| ScanRunTheorems.FinishFitsIff | backend/app/scan/run_store.py:166-211 | a finish leaves a sound stage exactly if the store still has an execution of it |
| ScanRunTheorems.OrphanStage | backend/app/scan/run_store.py:294-308 | deleting a run under an open call leaves a completed stage with count 0 and no history |
| ScanRunMirror.SameRowsSameHistory | backend/app/scan/run_store.py:279-285 | stores with the same rows give the same ordered history of a run whose executions started at different times |
| ScanRunMirror.TiesKeepRowOrder | backend/app/scan/run_store.py:284 | executions that started together are given in row order, which a restart may change |
| ScanRunMirror.ReplacedInPlace | backend/app/scan/run_store.py:216-229 | with unique ids, replacing the first match is ending the one entry wherever it is |
| ScanRunMirror.DeletedMirrored | backend/app/scan/run_store.py:294-324 | deletion from memory and from the tables leaves them mirrors of each other |
| ScanRunStore.ScanRunStore.CreateRun | backend/app/scan/run_store.py:75-84 | the run is stored, and the rows stay the mirror of the memory |
| ScanRunStore.ScanRunStore.UpsertStage | backend/app/scan/run_store.py:89-108 | the stage is stored, and the rows stay the mirror of the memory |
| ScanRunStore.ScanRunStore.AddFindingLineage | backend/app/scan/run_store.py:110-122 | the finding is produced by the run, listed once, and the rows stay the mirror |
| ScanRunStore.ScanRunStore.BeginStageExecution | backend/app/scan/run_store.py:129-164 | a running entry is appended and counted, and the rows stay the mirror |
| ScanRunStore.ScanRunStore.UpdateExecution | backend/app/scan/run_store.py:213-230 | the nested loops end the one entry with the id, completed or failed with the error given, or change nothing, and the rows stay the mirror |
| ScanRunStore.ScanRunStore.FinishStageExecution | backend/app/scan/run_store.py:166-211 | entry and stage are completed without an error, or failed with the one given, and the rows stay the mirror |
| ScanRunStore.ScanRunStore.ExecutionsForRun | backend/app/scan/run_store.py:279-285 | the history sorted by start time |
| ScanRunStore.ScanRunStore.DeleteProjectRuns | backend/app/scan/run_store.py:294-324 | memory loses exactly the project's runs, and the rows stay the mirror |
| ScanRunStore.ScanRunStore.SetFactory | backend/app/scan/run_store.py:46-71 | rebuilding from the rows, read in any order, gives the same runs, stages and lineage, and the same history where start times differ |
| ScanRunService.ScanRunService.RecordStageExecution | backend/app/scan/run_service.py:73-114 | entry and stage are failed with its error after an exception or a result counted as failed, completed after any other result, and running if the test for failure raised; an exception is passed on |
| ScanRunService.ExecutionLeft | backend/app/scan/run_service.py:73-114 | the same of the specified writes, for any store without that execution id |
| ScanRunService.UnjudgedStaysRunning | backend/app/scan/run_service.py:106-114 | when the test for failure raises, entry and stage stay running |
| ScanRunService.ScanRunService.ValidateStageContext | backend/app/scan/run_service.py:117-151 | refused exactly for an unknown run or findings it did not produce, which are named |
| ScanRunService.ScanRunService.ExecuteScan | backend/app/scan/run_service.py:157-246 | the sequence of writes of one scan: of a new run it leaves what ScanRecorded says, a broken scan its SCAN stage and the run failed |
| ScanRunService.ScanRecorded | backend/app/scan/run_service.py:157-246 | a scan of a new run leaves PREPARE done, SCAN completed or failed with the error, all else pending, one execution of each, exactly the findings registered as lineage, and the run completed with the counts or failed with the error |

## Left out

* Ids, texts and times are integers where only their equality and order matter; two findings have the
  same fingerprint exactly when their signatures agree, as if SHA-256 were injective. In the registry a
  fingerprint is an integer, too; what its signature tells is the subject of `Signature`.
* Calls into unknown functions, boolean operators, comprehensions, container fields, aliasing and closures
  carry no taint in the dynamic semantics, as the engine does not follow them.
* Default arguments and decorators of a function, which the engine never walks, so that sinks in them are not
  reported; they have no place in the syntax here.
* `with` items, tuple and attribute targets, assignment expressions (`:=`), lambda defaults, class bodies at
  run time, `match`, `async for`, `async with` and other statements the engine skips: the taint semantics
  says nothing about them.
* TaintPass.AnalyzeFile: function summaries, finding ids, confidence and evidence are recorded by the scanner
  and read by nothing modelled here.
* TaintSoundness.CoveredWalkIsSound: its condition on loops and `finally` is sufficient, not necessary: a run
  clears a name it rebinds and takes one arm of a conditional, a walk does neither
  (TaintLimits.ClearedEachRound, TaintLimits.TestedOnly).
* TaintLimits.SecondWalkEnsures: one way for the same reason. A comparison of walks is exact for what walks find
  (TaintLimits.SecondWalkTells), not for what runs do.
* The scan rules' predicates, the Python parser, tokenizer and unparser are parameters.
* PatchConcatenation.QueryKeptIff: other variables keep their values between the assignments and the query, and
  the assigned expressions do not mention the query variable itself. Of SQL's lexical structure only single and
  double quotes are modelled, not comments or a dialect's other quotes.
* PatchSearch.NameKeptIff: straight-line code; branches and loops only as BranchFound shows one. An f-string
  piece that cannot be decomposed, which no parsed f-string has, counts as no fix, where the code would raise.
* PatchLines.SecondApplicationRefused: one way only; the exact condition is SecondApplicationIff. The patches
  the builder itself makes do not begin with a newline, so they meet its seam condition; the patch of
  SeamReapplied does begin with one.
* PatchLines.ImportFrame: where the import goes is an input, as the Python parser finds the place.
* Rendering the rewritten statement and finding it by line number depend on the library's syntax tree.
* The two shell-command strategies of the patch builder: their templates are fixed text.
* The sandbox and the language model: a proof outcome and a verdict are arbitrary inputs.
* Text of workspace files in the pipeline model: whether the patch fits is an input there, and the edit
  itself is `PatchLines.ApplyProposal`.
* Stage executions recorded by the approval, proof and validation routes are modelled with the scan runs,
  not again in the pipeline.
* The database rows of the stores other than scan runs: every read goes to memory, whose content does not
  depend on them, except for the failing writes of the SLA store.
* ScanRunStore.ScanRunStore.SetFactory: models the store with a database; without one a restart is empty.
* SlaStore.SlaService.EvaluateOnce: the records are listed in some order; the code sorts them, which only
  orders its log.
* SlaConcurrent.AtMostOneEscalation: failing database writes inside the critical section are modelled in
  SlaStore only.
* SlaConcurrent.StepKeeps: the risk assessment a start works from is an input, and a removal takes record and
  events in one step.
* Pipeline.GateOrder: a validation and a proof take two steps each; an approval request, a decision, a proposal,
  an application and a recheck are one step each, though in the code another call may come between their gate
  and their record.
* Pipeline.RequestOrigin: a request's gate and its saving are one step, as above.
* Approval.HistoryInvariant: calls are whole; requests and decisions that overlap are the subject of
  ApprovalRaces.
* Approval.NeverASecondRequest: likewise; two requests at once are ApprovalRaces.TwoActive.
* ApprovalRaces.ConsistentIff: saving a request and recording its event is one step, and so is a removal.
* Metrics.Round4: ratios and their rounding are real numbers, in the code binary floats; the bound 0.00015 of
  Metrics.ReportedF1IsClose leaves room up to 0.00025 for their error.
* Metrics.ReportedF1IsClose: as above, a bound over the reals.
* Naive datetimes are modelled for approvals, where the service rejects them; elsewhere the routes do.
* Execution and request ids are fresh, as random 128-bit ids are taken to be.
* Risk scores, HTTP routing, permissions, reports, dashboards, the code-property-graph builder and the
  DefectDojo client: presentation, tables of constants or foreign systems.
