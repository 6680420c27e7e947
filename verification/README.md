# Verification of the export path and the relay client

This project models the parts of the bridge that decide which data leaves a source and in what
shape, and proves what they guarantee, as for-all statements about the model. To verify it:
`dafny verify dfyconfig.toml`.

## What is modelled

**Dotted paths, masking and discovery.** A record is a JSON value in which any string may hold
further JSON text. One step of descent decodes a string once and picks a list element by a digit
segment or a dict entry by key (`Paths`). The read walk, the masking walk and the two discovery
walks all build on it. `Masking` and `Discovery` give the walks as functions on JSON values and
prove how they fit together: reading after writing, frames, drops, rule lists with overlapping or
aliased paths, and rules that are made from discovered paths. `Containers` and `MaskingInPlace`
run the masking walk the way Python does, on a tree of mutable nodes inside a deep copy, and
prove that it comes to the function and leaves the original record alone. The JSON codec is a
parameter with stated laws. `JsonText` is a printer and parser for the text of RFC 8259 (sections
2 to 7) that satisfies them, so the laws can be met.

**The export batch loop.** `Sampling` is the counting sampler with its closed forms. `Worker` is
the loop that pages through a source and samples, extracts, masks, resolves assets and posts
under a cap, with a progress write and a cancellation check per batch. Its specification is a
pipeline without batches, counters or cap.

**The job table as a concurrent protocol.** `JobRows` has each SQL statement as a function on the
rows. `JobStore` is the in-memory table with its in-place sweeps. `Protocol` interleaves the
statements of create and retry requests, workers, cancel requests, sweeps and purge in any order,
as a state machine over whole runs. `QuotaLimits` builds runs that attain the quota bound.

**The filter text.** `FilterText` has the browser's printer of rule lists and the server's
tokenizer, rule matcher and SQL emitter, and the texts that its two regular expressions match as
predicates of their own. `FilterForm` is the form that holds the rules and the text, and
`WhereClause` the meaning of the WHERE clause that is sent, read back from its text under the
precedence of SQL. `FilterRows` reads each condition back as a comparison, a search or a time bound,
and holds it against the rows of a table.

**The relay client.** `RelayPages` has the record selector, pagination and the lazy record
generator. `RelaySession` has the chunking upload session with failures at any request.
`SpecRefs` has the `$ref` resolution of the configuration generator.

`Wrappers` has the option type.

## Where the code does less than its documentation says

The model follows the code in each case; the lemmas named give the exact condition.

- `specs/current/sampling.md` says that the systematic method keeps every Nth record. A ratio
  above 2/3 and below 1 rounds to a step of 1, for which the code keeps nothing
  (`Sampling.RatioStepIsOne`, `Sampling.SystematicRatioCount`).
- `specs/current/export-pipeline.md` calls the per-organisation limit atomic. The lock ends before
  the insert, and the worker's running write looks at no status. The number of active jobs that
  runs can reach is the limit, plus the requests that are between count and insert at one time,
  minus one, plus the rows revived by a late running write (`Protocol.QuotaBound`,
  `QuotaLimits.QuotaExact`), so that the documented limit holds exactly when there is one such
  request at a time and no such write (`QuotaLimits.DocumentedLimit`).
- The conditions of an OR list and the time bounds are joined without parentheses, so that the
  bounds narrow the last rule only. The clause is right exactly for one rule, or without bounds
  (`WhereClause.OrBindsLast`, `WhereClause.OrClauseRightExactly`, `WhereClause.OrEscapesBound`).
- Removing the last rule of the filter form leaves its text in force. The text stands for the form
  exactly when the rule list is not empty or the text was blank (`FilterForm.SyncedExactly`,
  `FilterForm.RemovedRuleStays`).
- A drop rule on a list element lets the next element, if there is one, move to its path
  (`Masking.DropMeetsLaw`, `Masking.LoneDrop`, `Masking.DropOnListIsDefeated`).
- An expression that is no rule list is searched for as full text, with its quotes escaped and its
  backslashes not. The condition searches for the text exactly when it holds no backslash
  (`FilterRows.SearchExactly`).
- The purge takes ended rows by their time of completion. A row that a counting request gave up has
  none, so that it is never purged (`Protocol.GivenUpIsNeverPurged`).
- A record limit below 1 lets one record through, since it is looked at behind each record
  (`RelaySession.EndToEnd`).
- A cancelled job stays cancelled exactly while no worker is past loading its row, since later
  worker writes look at no status (`Protocol.CancelledSticksIff`).

## Model

| member | source | states |
|---|---|---|
| Paths.SplitJoin | src/databridge/export/masking.py:57-62 | splitting a path at its separator gives back the segments it was joined from |
| Paths.ResolveAppend | src/databridge/export/extraction.py:38-55 | reading a path is reading its first part and then the rest from there, through every decode layer |
| Paths.ExtractReadsOn | src/databridge/export/extraction.py:58-75 | extraction yields None exactly when nothing can be read below the path, and otherwise a container that reads on exactly as the record does below the path |
| Paths.ExtractsContainers | src/databridge/export/extraction.py:58-75 | extraction gives a value if and only if it is a list or dict, and the path reads it or text that decodes to it |
| Paths.KeysRead | src/databridge/export/extraction.py:31-35 | where a path of dict keys leads by plain lookup, the read walk reads that value |
| Paths.MissingKey | src/databridge/export/extraction.py:31-35 | a path through a key that a dict does not have reads nothing, whatever follows |
| Paths.TextReadsThrough | src/databridge/export/extraction.py:22-26 | printed text reads as the value it was printed from, when that is a list or dict, and else as nothing: one layer is decoded |
| Paths.IndexIsDecimal | src/databridge/export/extraction.py:27-30 | a segment that is a number in decimal, with any number of zeros before it, finds element n if and only if the list has one |
| Paths.OneSlotPerDecimal | src/databridge/export/extraction.py:27-30 | nothing but digits finds an element, and two segments find the same one if and only if they agree after leading zeros |
| JsonText.RoundTrip | src/databridge/export/masking.py:41 | parsing a printed JSON value gives back the value and the text after it, for every value |
| JsonText.ParsedValid | src/databridge/export/extraction.py:22-26 | whatever parses has unique keys and number literals of the grammar |
| JsonText.NumberExactly | src/databridge/export/extraction.py:22-26 | a literal is taken for a number if and only if it has a sign or none, a whole part, and a fraction and an exponent or none, as in section 6 of RFC 8259 |
| JsonText.Layout | src/databridge/export/masking.py:41 | printed text has a comma and a blank between values, and a colon and a blank behind keys |
| JsonText.IsLawful | src/databridge/export/masking.py:44-54 | the concrete printer and parser, with any digest of 64 hex characters, satisfy every law that the walks rely on |
| Masking.WalksAgree | src/databridge/export/masking.py:17-41 | the write walk applies its action exactly when the read walk finds a value, and keeps validity and the kind of the container |
| Masking.ActionsLeave | src/databridge/export/masking.py:44-54 | at a path that resolves, mask leaves the text ***, redact the text [REDACTED], hash the digest of the value that was read there, and a drop that moves nothing up leaves nothing |
| Masking.WrittenIsLeaf | src/databridge/export/masking.py:44-54 | nothing an action writes is decoded as a container later |
| Masking.ReadAfterWrite | src/databridge/export/masking.py:17-54 | what every path reads after a rule that applied: nothing below its place, at its place the value whose texts `Masking.ActionsLeave` spells out, the rewritten tree above it, and the same value as before anywhere else; for drops that move no list element up |
| Masking.DropMeetsLaw | src/databridge/export/masking.py:44-54 | a drop meets that law on every path if and only if no list element moves up into its place |
| Masking.ReadAfterMiss | src/databridge/export/masking.py:31-41 | after a rule that does not resolve, only a string container strictly above the place where the rule stopped may be serialised anew; every other path reads exactly what it read before |
| Masking.MissLeavesLeaves | src/databridge/export/masking.py:31-41 | a rule that does not resolve changes no leaf, keeps the kind of every value, and neither makes a path resolve nor keeps one from it |
| Masking.ReadAfterDrop | src/databridge/export/masking.py:44-54 | after a drop the path reads the successor of a dropped list element, and else nothing |
| Masking.DropRemoves | src/databridge/export/masking.py:44-54 | a dropped path is gone if and only if it ended at a dict entry or at the last element of its list |
| Masking.MaskAllValid | src/databridge/export/masking.py:57-62 | a rule list keeps records valid and dicts dicts, lists lists |
| Masking.MaskAllInOrder | src/databridge/export/masking.py:57-62 | a rule list is applied first to last, each rule to what the ones before it left |
| Masking.NoRuleIsDefeated | src/databridge/export/masking.py:57-62 | for any rule list whose drops, each in its turn, meet a dict entry, the last element of a list, or nothing, each rule's path in the result reads nothing, or exactly what that rule or a later one wrote at that place |
| Masking.RuleListLeaves | src/databridge/export/masking.py:57-62 | for such a list, whatever a rule's path reads in the result is the text ***, the text [REDACTED] or a digest, as left by that rule or a later one that resolved in its turn to the same place |
| Masking.LastRuleWins | src/databridge/export/masking.py:57-62 | for any rule list, the last rule leaves its own text at its path when the path resolves in its turn |
| Masking.KeyedDropsDefeatNothing | src/databridge/export/masking.py:57-62 | when the drop rules enter no list of the record itself, their turns need no looking at: no rule of the list is defeated |
| Masking.LoneDrop | src/databridge/export/masking.py:44-62 | a drop on its own leaves an unwritten value at its path if and only if a list element moves up into it |
| Masking.DropOnListIsDefeated | src/databridge/export/masking.py:44-62 | a concrete record and rule for which the claim without the restriction on drops is false |
| Containers.Node.Append | src/databridge/export/extraction.py:22-26 | adding a child to a node extends its contents by exactly that child and its nodes by the child's |
| Containers.Build | src/databridge/export/extraction.py:22-26 | decoding yields a fresh tree of nodes that reads as the decoded value |
| Containers.DeepCopy | src/databridge/export/masking.py:58 | the copy reads as the original and shares no node with anything that existed before |
| Containers.Snapshot | src/databridge/export/masking.py:41 | what serialisation sees of a tree of nodes is the value it stands for |
| Containers.PositionIs | src/databridge/export/masking.py:44-54 | positions in a node are the slots of the JSON value: reading, assigning and deleting agree |
| Containers.InsertTree | src/databridge/export/masking.py:39 | putting a separate tree among separate trees keeps them separate |
| MaskingInPlace.DecodeAndIndex | src/databridge/export/extraction.py:13-35 | the node to act on is the container itself, or a fresh one decoded from text, and is found exactly when the descent step finds a slot, which for lists is the decimal reading of `Paths.IndexIsDecimal` |
| MaskingInPlace.ApplyAction | src/databridge/export/masking.py:44-54 | assigning or deleting in the node has the effect of the action on its contents, whose texts `Masking.ActionsLeave` spells out |
| MaskingInPlace.ApplyAtPath | src/databridge/export/masking.py:17-41 | the mutating walk returns the container it was given, changed in place, and result and flag are those of the walk on values |
| MaskingInPlace.ApplyMasking | src/databridge/export/masking.py:57-62 | the result is a fresh tree that reads as the rule list says, the record given is unchanged, and each rule keeps its promise in the result in the words of `Masking.RuleListLeaves` |
| Discovery.SchemaBuilder.Walk | src/databridge/adapters.py:163-193 | the recursive walk fills the shared schema with the leaves below a value, the first one under a path deciding |
| Discovery.InferSchemaNested | src/databridge/adapters.py:163-193 | the schema of a sample is the record of the leaves of its records in order |
| Discovery.LeavesExact | src/databridge/adapters.py:169-187 | a leaf is emitted exactly for the paths of at most three visible key steps that end at a value that is no dict |
| Discovery.LeafIsRead | src/databridge/adapters.py:169-187 | there is a leaf under a path if and only if no key of it starts with an underscore, the read walk reads it through dict keys alone, and the value read is no dict, nor text of one |
| Discovery.RecordLeaves | src/databridge/adapters.py:169-187 | in one record the emitted paths, split again, are exactly the visible leaf paths, with their leaves |
| Discovery.SchemaExact | src/databridge/adapters.py:163-193 | the schema has exactly the visible leaf paths of the records, each described by the first record that has it |
| Discovery.SchemaPaths | src/databridge/adapters.py:131-193 | in terms of reading alone: a path is in the schema if and only if it has one to three keys, none with an underscore in front, and some record reads it through dict keys to what is no dict |
| Discovery.SchemaDescribes | src/databridge/adapters.py:131-160 | the type name and the sample of a schema entry for each kind of value in the first record that has the path: string, bool, int, float or list |
| Discovery.LeafResolves | src/databridge/export/extraction.py:38-55 | an emitted path is read by the read walk, to the leaf or its text, through dict keys alone |
| Discovery.DiscoverThenMask | src/databridge/adapters.py:163-193 | a rule made from a schema path changes that location of the record that contributed it to exactly what its action writes |
| Discovery.DiscoveredRulesHold | src/databridge/adapters.py:163-193 | rules made from visible leaf paths of a record, in any number and order, with drops among them, do not defeat each other in it |
| Discovery.KeyCollector.FlattenKeys | src/databridge/static/browser.js:956-972 | the browser's walk adds exactly its paths to the set it is given |
| Discovery.SamePaths | src/databridge/static/browser.js:956-972 | the browser's walk finds the same set of paths as the server's |
| Discovery.DeriveExtractedFields | src/databridge/static/browser.js:974-983 | from the previews that resolved and parse, the browser derives the keys of the schema that the server would infer from the same values, and null when there are none |
| Discovery.ShownExactly | src/databridge/static/browser.js:974-983 | the values taken are exactly those that some result, resolved and with a preview that is not empty, parses to |
| Sampling.SamplingBuffer.Feed | src/databridge/export/sampling.py:24-65 | one call makes the decision and the counters of one step |
| Sampling.SamplerSelects | src/databridge/export/sampling.py:24-65 | over any stream the counting sampler makes the stateless selection, and its counters have their closed forms |
| Sampling.RatioKeeps | src/databridge/export/sampling.py:33-59 | with a ratio, a record is kept if and only if its draw is below it; a systematic ratio of 1 keeps all |
| Sampling.StratifiedKeeps | src/databridge/export/sampling.py:54-65 | a stratified size keeps a record if and only if fewer than int(size) earlier records have the same text in the target column |
| Sampling.SystematicKeepsEvery | src/databridge/export/sampling.py:45-52 | for a ratio up to 2/3 position i is kept if and only if i is a multiple of the step, the whole number nearest to 1/ratio, the even one of two |
| Sampling.SizeKeepsPrefix | src/databridge/export/sampling.py:27-59 | an absolute size keeps exactly the first int(size) records, for the random, the systematic and the ungrouped stratified method alike |
| Sampling.SizeKeepsPrefixOfGroups | src/databridge/export/sampling.py:54-59 | the stratified method with a size keeps exactly the first int(size) records of each group |
| Sampling.RatioStepIsOne | src/databridge/export/sampling.py:48-49 | the systematic step is 1 if and only if the ratio is above 2/3 |
| Sampling.SystematicRatioCount | src/databridge/export/sampling.py:45-52 | a systematic ratio up to 2/3 keeps positions 1 mod step, so n/step rounded up after n records; between 2/3 and 1 it keeps none |
| Sampling.GroupCountersAddUp | src/databridge/export/sampling.py:54-65 | the totals seen and kept are the sums of the per-group counters |
| Worker.ExportRun.ExportRecord | src/databridge/export/worker.py:189-233 | the body of the record loop advances the unbatched pipeline by one record, and sets the stop flag exactly when the cap is filled |
| Worker.ExportRun.Run | src/databridge/export/worker.py:183-239 | an uncancelled and error-free run posts the first max_items results of the unbatched pipeline, which `Worker.EveryRecordAccounted` spells out, whatever the batch size; a cancelled one those of the batches before; a failed one a prefix |
| Worker.EveryRecordAccounted | src/databridge/export/worker.py:189-229 | what becomes of each record: the posts are, in order, one for each sampled record that has content and whose assets do not raise, being its extracted and masked content or what asset resolution makes of it; with an extraction path content is what the path reads as a container, and without one the record; the asset errors are exactly the records whose assets raise, and they are skipped like all the others |
| Worker.CapLeaves | src/databridge/export/worker.py:231-233 | the cap leaves the first max_items posts, and all of them when it is not set or not positive |
| Worker.BatchEndIs | src/databridge/export/worker.py:183-188 | batch k ends behind record (k + 1) times the batch size, or with the source |
| Worker.NeededIsCap | src/databridge/export/worker.py:231-233 | stopping behind the record that fills the cap is the same as taking the first max_items outputs |
| Worker.StoppedAt | src/databridge/export/worker.py:231-239 | what was posted when any record is reached is a prefix of what the full run posts |
| Worker.Conservation | src/databridge/export/worker.py:189-229 | posted plus skipped is the number of records looked at, and asset errors are among the skipped |
| Worker.ProgressConserves | src/databridge/export/worker.py:235 | each progress write adds up to the records looked at by then and never exceeds the cap |
| Worker.EveryPostIsMasked | src/databridge/export/worker.py:199-229 | every posted record is the masked content of a source record, in which no rule is defeated, or what asset resolution makes of that content; which content is stated by `Worker.EveryRecordAccounted` |
| JobStore.DemoPool.SweepRunning | src/databridge/db/demo_pool.py:303-316 | the in-place loop fails exactly the silent running rows of the org, leaves all others, and counts them |
| JobStore.DemoPool.SweepPending | src/databridge/db/demo_pool.py:318-328 | the in-place loop fails exactly the pending rows of the org from before the cutoff, leaves all others, and counts them |
| JobStore.DemoPool.CountFiltered | src/databridge/db/demo_pool.py:258-284 | the filter-based count is the number of active rows of the org |
| JobStore.DemoPool.CountActiveJobs | src/databridge/export/db.py:283-312 | afterwards the active rows of the org are exactly those that were active and fresh, their number is returned, those silent for 1800 seconds are failed with the message of their kind, and nothing else has changed |
| JobStore.DemoPool.CancelExportJob | src/databridge/export/db.py:249-272 | a row is cancelled exactly when it is pending or running and the caller owns it, administers its org or administers all of them, and no other row changes |
| JobStore.DemoPool.UpdateStatus | src/databridge/export/db.py:189-207 | a status write of each kind changes the row whatever its status was |
| JobStore.DemoPool.UpdateProgress | src/databridge/export/db.py:210-225 | a progress write sets the counters and the heartbeat and nothing else |
| JobStore.ExpireOutcome | src/databridge/export/db.py:283-312 | the two expiring updates together leave active exactly the fresh active rows |
| Protocol.QuotaBound | src/databridge/routes/export_jobs.py:92-117 | in every run the active jobs and admitted requests of an org stay within the limit, plus the most requests ever admitted at once, minus one, plus the revived rows |
| Protocol.QuotaPerAdmission | src/databridge/routes/export_jobs.py:161-206 | with at most k requests between count and insert and no late running write, an org never has more than max + k - 1 active jobs |
| QuotaLimits.BoundAttained | src/databridge/routes/export_jobs.py:92-109 | for every limit, every number of requests that count together and every number of late running writes there is a run with exactly limit plus requests minus one plus late writes active jobs |
| QuotaLimits.QuotaExact | src/databridge/routes/export_jobs.py:92-109 | all runs with at most so many of both stay within a number of active jobs if and only if it is at least that sum |
| QuotaLimits.DocumentedLimit | src/databridge/routes/export_jobs.py:92-109 | the configured limit holds in all such runs if and only if requests count one at a time and no running write comes late |
| QuotaLimits.LateStart | src/databridge/export/db.py:189-207 | for every limit, a run with one request at a time exceeds it through a running write on a row that a counting request gave up as stale |
| Protocol.CancelledSticks | src/databridge/export/db.py:249-277 | a cancelled row whose worker is not under way outlives every continuation unchanged, and nothing more is posted for it |
| Protocol.CancelledSticksIff | src/databridge/export/worker.py:43-50 | a cancelled row stays cancelled in every continuation if and only if its worker is idle |
| Protocol.CancelSeenInLoop | src/databridge/export/db.py:275-277 | a job that is cancelled while its worker is in the loop never completes: unless the worker fails, its row stays cancelled in every continuation and the next check, which asks for a cancelled row, ends the worker |
| Protocol.UnloadedUnposted | src/databridge/export/worker.py:43-50 | nothing was posted for a job whose row no worker has started on |
| Protocol.CancelledBeforeLoad | src/databridge/export/worker.py:43-50 | a job cancelled before a worker loads its row stays cancelled in every continuation of every run, and nothing is ever posted for it |
| Protocol.JobInvHolds | src/databridge/export/db.py:189-225 | what every run keeps of one job: its times are in order while it runs, and it is neither running nor completed before a worker started it |
| Protocol.RunningRowsHaveTimes | src/databridge/export/db.py:189-225 | in every run each running row has started_at <= last_heartbeat_at <= now, neither of them null |
| Protocol.TimelyRowsSurvive | src/databridge/export/sweep.py:13-40 | while heartbeats are closer together than both timeouts, no sweep and no purge touches the row of a working job; for ended rows see `Protocol.RemovedByPurgeOnly` |
| Protocol.SweepFailsOverdue | src/databridge/export/sweep.py:13-25 | one sweep of either kind fails a running row if and only if its heartbeat is overdue, and else leaves it alone |
| Protocol.SilentRowsFail | src/databridge/export/sweep.py:13-25 | in every run, once nothing more is written for a running job, the first sweep that finds its heartbeat overdue leaves the row failed, or already gone, and so it is in every continuation |
| Protocol.RemovedByPurgeOnly | src/databridge/export/sweep.py:30-40 | an event removes a row if and only if it is the purge, the row is completed or failed, and its completion lies more than the time to live back |
| Protocol.PurgedAfterTimeToLive | src/databridge/export/sweep.py:30-40 | in every run: while nothing more is written for an ended row, it is there unchanged, purges included, until its age exceeds the time to live, and the first purge after that removes it for good |
| Protocol.GivenUpIsNeverPurged | src/databridge/export/db.py:283-312 | a failed row without a time of completion is in every continuation as long as nothing more is written for it |
| Protocol.CompletesUndisturbed | src/databridge/export/worker.py:43-74 | from every state, an undisturbed run of a queued job leaves a completed row with its counters, times and no error, and one more post |
| Protocol.FailsWithMessage | src/databridge/export/worker.py:59-66 | an exception of a worker leaves its row failed with that message and no other row changed, and a missing sink is such an exception |
| FilterText.QueryToSql | src/databridge/adapters.py:67-98 | the loops over pieces and connectives emit what the specification gives, or the full-text search, or nothing; what the emitted text selects is stated by `FilterRows.TextSelects` and `FilterRows.SearchExactly` |
| FilterText.MatchesExactly | src/databridge/adapters.py:23-24 | the matcher gives a rule if and only if the text is its field, one of the seven operators and its quoted value, with blanks around the operator or not |
| FilterText.ConnectiveExactly | src/databridge/adapters.py:67-80 | a connective is found at a position if and only if blanks, AND or OR in any case, and blanks start there, the latter taken to their end |
| FilterText.TokenizeExactly | src/databridge/adapters.py:67-80 | a text splits into pieces and connectives if and only if each connective is the leftmost one behind the piece before it |
| FilterText.PredicateSplits | src/databridge/static/browser.js:568-577 | the printed text splits into exactly the printed rules, with the chosen connective between each two |
| FilterText.RecoversRules | src/databridge/adapters.py:67-98 | for plain rules the server recovers the fields, operators and values in order and joins their conditions by the chosen connective; what each condition means is stated by `FilterRows.ConditionMeansRule` |
| FilterForm.FilterForm.AddFilterRule | src/databridge/static/browser.js:551-554 | a blank rule with the operator == is added at the end, and the text that shows the list stays as it is |
| FilterForm.FilterForm.RemoveFilterRule | src/databridge/static/browser.js:556-560 | the rule is taken out and the text is synced, which does nothing for a list that is empty then |
| FilterForm.FilterForm.OnRuleChange | src/databridge/static/browser.js:562-566 | after a change the text is the one that shows the list |
| FilterForm.FilterForm.OnPredicateInput | src/databridge/static/browser.js:496-501 | typed text replaces the text of the rules, and blank text clears the rules |
| FilterForm.RecoversForm | src/databridge/static/browser.js:568-577 | from the text of a rule list the server recovers what the list shows; rules that are not filled in play no part |
| FilterForm.FilledInJoins | src/databridge/static/browser.js:568-577 | the rules that are printed keep their order: those of two lists joined are those of the first and then of the second |
| FilterForm.SyncedExactly | src/databridge/static/browser.js:568-577 | after a sync the server filters by what the form shows if and only if the rule list is not empty, or the text was blank before |
| FilterForm.RemovedRuleStays | src/databridge/static/browser.js:556-577 | for every plain rule: once it was the only one and was removed, the form shows no rule and the server still filters by it |
| WhereClause.WhereText | src/databridge/adapters.py:308-316 | the conditions sent are the fragment and the bounds in order, joined by AND, or none |
| WhereClause.WhereIsFlat | src/databridge/adapters.py:308-316 | the clause sent for a rule list and bounds is one flat chain of atoms and connectives |
| WhereClause.TypedIsFlat | src/databridge/adapters.py:308-316 | so it is for any text that is not blank, with the connectives it has, or the search for it |
| WhereClause.ChainHoldsExactly | src/databridge/adapters.py:95-98 | such a chain holds if and only if all conditions of some longest run joined by AND hold |
| WhereClause.AndMeansAll | src/databridge/adapters.py:308-316 | for AND lists the clause means all rules and both bounds |
| WhereClause.OrAloneMeansSome | src/databridge/adapters.py:95-98 | alone, the fragment of an OR list means that some rule holds |
| WhereClause.OrBindsLast | src/databridge/adapters.py:308-316 | with bounds, the clause of an OR list means that a rule before the last holds, or the last together with the bounds |
| WhereClause.OrWithBoundsExactly | src/databridge/adapters.py:308-316 | for one row that is some rule within the bounds if and only if the row is within the bounds or satisfies no rule but the last |
| WhereClause.OrClauseRightExactly | src/databridge/adapters.py:308-316 | the clause of an OR list is right for every row if and only if there is one rule only or no bound |
| WhereClause.OrEscapesBound | src/databridge/adapters.py:308-316 | a concrete list of two rules with one bound, and a row outside the bound that is selected |
| WhereClause.ClauseReadsBack | src/databridge/adapters.py:95-98 | the text of a clause of any matched rules, searches and bounds, read with string literals kept whole and connectives in any case, gives back its conditions and its connectives |
| WhereClause.TextMeansChain | src/databridge/adapters.py:308-316 | what the clause text means is what its chain means |
| WhereClause.SentTextMeans | src/databridge/adapters.py:308-316 | rules that are printed, parsed, emitted, joined with the bounds and read again mean the flat chain of the rules and the bounds |
| FilterRows.ConditionMeansRule | src/databridge/adapters.py:81-94 | the condition emitted for any rule that the server matches, read back as a comparison or a search, holds for a row if and only if the row satisfies the rule by its operator on the unescaped value, for all seven operators |
| FilterRows.PositionFinds | src/databridge/adapters.py:81-94 | the search function finds a text if and only if it stands somewhere in the column, in any case of letters |
| FilterRows.BoundsMean | src/databridge/adapters.py:308-316 | the bounds hold for a row if and only if its instant is at or after the start and before the end |
| FilterRows.TextSelects | src/databridge/adapters.py:67-98 | end to end: the clause sent for the printed text of any plain rules, with bounds, selects exactly the rows that satisfy all rules and the bounds, or, for OR, a rule before the last or the last together with the bounds |
| FilterRows.TypedTextSelects | src/databridge/adapters.py:67-98 | the same for any text typed by hand: when it matches rules, the clause with bounds selects exactly the rows that satisfy all rules of some run joined by AND, and the bounds when that run is the last; any other text without a backslash selects the rows within the bounds in whose search column it stands |
| FilterRows.BlankTextSelects | src/databridge/adapters.py:308-316 | blank text selects the rows within the bounds |
| FilterRows.SearchExactly | src/databridge/adapters.py:67-98 | the full-text condition searches for the expression itself if and only if it holds no backslash |
| FilterRows.SearchSelects | src/databridge/adapters.py:67-98 | without a backslash it selects exactly the rows in whose search column the expression stands |
| RelayPages.JsonSelect | client-side-relay/databridge-relay.py:408-434 | the loop over path parts selects what the specification function does, which `RelayPages.SelectsAtKeys`, `RelayPages.SelectsElement` and `RelayPages.SelectsColumn` spell out |
| RelayPages.SelectsAtKeys | client-side-relay/databridge-relay.py:408-434 | a path of plain keys selects the value under those keys |
| RelayPages.SelectsElement | client-side-relay/databridge-relay.py:424-427 | behind keys that lead to a list, a number in decimal selects that element, and null beyond the end |
| RelayPages.SelectsColumn | client-side-relay/databridge-relay.py:417-429 | behind keys, a name selects that column of a list, and a name with [*] the list under it or an empty list |
| RelayPages.FalsyExactly | client-side-relay/databridge-relay.py:366-393 | a selected page or link ends the paging exactly when it is null, false, zero or empty |
| RelayPages.ObjectsAre | client-side-relay/databridge-relay.py:437-440 | records that are objects pass unchanged, and any other is put under the key value |
| RelayPages.RecordIterator.Next | client-side-relay/databridge-relay.py:180-239 | each call delivers the next record of what is still to come, or the end or the exception; a call with records at hand makes no request, and the requests made follow from the number of records delivered |
| RelayPages.RequestsForPages | client-side-relay/databridge-relay.py:180-239 | a run that takes j records of a paged source makes j/p requests, rounded up |
| RelayPages.RequestsToTheEnd | client-side-relay/databridge-relay.py:180-239 | a run that asks for more records than there are makes all requests of the drained generator, failures included |
| RelayPages.YieldsInOrder | client-side-relay/databridge-relay.py:180-239 | against a source of pages of one list, paging ends and yields the list from the first offset on, once and in order, to the end or the page limit, with the number of requests, for every kind of pagination |
| RelayPages.OffsetServes | client-side-relay/databridge-relay.py:366-378 | a source that answers offset and limit with slices serves pages: an empty page ends the paging, any other leads on by exactly the page size |
| RelayPages.OffsetFallsBack | client-side-relay/databridge-relay.py:366-378 | without a usable limit parameter the offset moves by the configured limit, and paging fails when there is none |
| RelayPages.NumberServes | client-side-relay/databridge-relay.py:380-385 | a source that answers page numbers with slices serves pages: the number goes up by one until a page is empty |
| RelayPages.CursorServes | client-side-relay/databridge-relay.py:357-364 | a source that hands out a cursor with every page but the last serves pages: the cursor is sent back, and null ends the paging |
| RelayPages.LinkServes | client-side-relay/databridge-relay.py:387-393 | a source that hands out a link with every page but the last, in the body or in the header, serves pages: the link is followed until there is none |
| RelayPages.OffsetYieldsAll | client-side-relay/databridge-relay.py:180-239 | without a page limit offset pagination yields the whole list after n/p rounded up, plus one, requests, and lists of objects unchanged |
| RelayPages.NumberYieldsAll | client-side-relay/databridge-relay.py:180-239 | so does pagination by number from the first page on |
| RelayPages.CursorYieldsAll | client-side-relay/databridge-relay.py:180-239 | with a cursor, from a request without one, the whole list comes after n/p rounded up requests, and one for an empty list |
| RelayPages.LinkYieldsAll | client-side-relay/databridge-relay.py:180-239 | and so it does with links |
| RelayPages.SliceSourceServes | client-side-relay/databridge-relay.py:224-239 | a source that puts each slice under a key is one of the sources that the paging results speak of |
| RelaySession.ChunksAre | client-side-relay/databridge-relay.py:85-116 | the chunks join up to the records, none is empty, and all but the last have the full size |
| RelaySession.Transfer | client-side-relay/databridge-relay.py:84-120 | the guarded part sends the script of creation, chunks and completion up to the first refusal, whatever the source and the bridge do |
| RelaySession.Run | client-side-relay/databridge-relay.py:77-128 | a run sends the transcript of its script, aborting a session that was created and not completed; a dry run sends nothing; the number returned is that of the records taken; and no page is requested for a record beyond the limit |
| RelaySession.SessionProtocol | client-side-relay/databridge-relay.py:77-125 | with failures anywhere, a created session ends with exactly one of a successful completion and an abort, nothing follows, chunks are numbered from 0, and completion comes only after all chunks succeeded, with their total |
| RelaySession.EndToEnd | client-side-relay/databridge-relay.py:77-125 | against a source of pages of one list and a willing bridge, the chunks sent join up to the first min(limit, n) records, or one record for a limit below 1, and the completion count is their number |
| SpecRefs.UnescapeEscape | client-side-relay/swagger-to-config.py:77 | the two replacements, in their order, undo the escaping of section 3 of RFC 6901 for every key |
| SpecRefs.ResolveRef | client-side-relay/swagger-to-config.py:72-82 | the loop over pointer segments finds what the specification function does |
| SpecRefs.PointerLeadsBack | client-side-relay/swagger-to-config.py:72-82 | the pointer written for a path of keys leads to the dict under that path, and to an empty dict when there is none |
| SpecRefs.ChaseEnds | client-side-relay/swagger-to-config.py:85-95 | the chase ends exactly at a schema that has no $ref, or one that is no text |
| SpecRefs.ChaseGoesOn | client-side-relay/swagger-to-config.py:85-95 | it goes on from a pointer to the dict under the path that the pointer was written for, or to an empty dict |
| SpecRefs.RepeatClosesCycle | client-side-relay/swagger-to-config.py:88-94 | a schema reached whose reference was followed before lies on a cycle |
| SpecRefs.ReachesCycleGoesOn | client-side-relay/swagger-to-config.py:88-94 | a chase that reaches a cycle never ends |
| SpecRefs.Deref | client-side-relay/swagger-to-config.py:85-95 | the loop ends on every document; when the chase of references ends, the result is the schema at its end, or the exception there, and else a schema that was reached and lies on a cycle; a schema without $ref is its own result, and a result with one lies on a cycle |

## Left out

- JSON numbers are kept as their literals, without NaN and infinities and without the conversion to
  floating point; `digest` and `str` are uninterpreted functions.
- `JsonText` reads `\u` escapes one code unit at a time and does not join surrogate pairs.
- The browser's JSON parser is taken to accept the same texts as the server's.
- Character classes (`isdigit`, `\w`, `\s`, case folding) are those of ASCII.
- A record is a tree: Python objects shared between two places of one record are not modelled.
- Ratios and sizes are reals; rounding errors of floating point are not modelled, and random draws
  are an input stream.
- The bodies of asset resolution, sinks, HTTP, object storage, metrics, webhooks, logging and
  configuration loading are oracles or absent; the skips that a sink reports at the end are not
  added to the counters.
- The source of a run serves fixed slices and reports its length as the total.
- SQL is modelled statement by statement on a map of rows: text handling, transaction isolation
  and the advisory lock are not, so that the statements of one transaction may interleave with
  others, which allows more runs than the database does. All clocks agree.
- The sweeps of the in-memory table visit the rows in any order, not in insertion order.
- A job has one worker; retries of the queue are not modelled. A retry request has the steps of a
  create request and does not read the failed job it copies.
- The browser sorts the fields it derives; the order is not modelled. The select box of the filter
  form and its panel are not part of the model.
- FilterRows.TypedTextSelects: what a search for text with a backslash selects is not stated beyond
  `FilterRows.SearchExactly`.
- WhereClause.ClauseReadsBack: reads connectives and string literals; that a database takes a field
  named like a keyword for that keyword is not modelled.
- Totals and external dataset ids of a job row, listing and downloads.
- FilterRows.ConditionMeansRule: how the database compares a column with a literal, and reads an
  instant, is a parameter; of the escapes in a literal, those of a backslash before a character that
  names another one, such as a line feed, are not read. The validation of typed filter text and the
  detection of fields that may hold personal data are not part of the model.
- FilterText.RecoversRules: a value with a quote, a backslash or a connective between blanks is
  outside the claim; the code does not escape what it prints.
- RelayPages.YieldsInOrder: a source answers any number of requests, but finitely many, so that a
  run that never ends is not modelled.
- Request parameters that are numerals in text count as numbers; building of URLs, path templates,
  authentication and request bodies.
- The relay's other entry points, and the configuration that swagger-to-config derives from a
  resolved schema.
- SpecRefs.PointerLeadsBack: covers dict nodes, the only ones the code returns; the pointer of the
  whole document and indices into lists lead to an empty dict in the code.
