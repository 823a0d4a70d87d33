# Bedrock knowledge-base cleaners and provisioning helpers, in Dafny

This project models the control logic of three Python scripts that drive
Amazon Bedrock's agent service and OpenSearch Serverless:

- `delete_bedrock_kbs.py` (`BedrockKBCleaner`). It lists every knowledge base
  and asks for the literal `DELETE` unless it is in a dry run or was given
  `--confirm`. It then deletes each knowledge base after its data sources
  and counts successes and failures. A data-source deletion that fails
  because of the vector store is retried after the data source's deletion
  policy has been set to `RETAIN`.
- `delete_bedrock_kbs_v2.py` (`BedrockKBCleanerV2`). It is the same cleaner
  with three differences. Every call can also time out, and timeouts are
  retried. A failure anywhere in the knowledge-base pagination discards
  everything already listed. The knowledge bases are processed in batches,
  with a short pause between two items of a batch and a longer one between
  batches.
- `kb_test.py`, the provisioning script. The model covers its decisions:
  parsing the collection endpoint out of an ARN, looking up the data-policy
  version and the collection, the four status-polling loops (knowledge base,
  ingestion job, agent, action group), skipping action groups that already
  existed, and assembling the agent's streamed answer.

Every provider call is replaced by a scripted reply (module `ProviderModel`).
A `Script` holds one sequence of replies per kind of call. A `Provider`
value holds the script, one read cursor per kind, and the trace of every
call made through it. Each trace entry records the reply the call got, and
`Sleep` and `Prompt` entries record the pauses and the confirmation
question. Once a kind of reply runs out, further calls get the failure
`ScriptExhausted`, so every loop of the model is total.

Each cleaner operation is specified by a function that runs it against the
provider (`…Run`). The classes `KbCleaner.Cleaner` and
`KbCleanerV2.CleanerV2` carry each operation out step by step, with the
source's loops and counters. Each method is proved to leave the client
exactly where its specification function does. The lemmas then state what
the scripts promise about those functions over every possible script:
call counts, order, termination, counters, and the absence of mutating
calls. The provisioning loops are methods over sequences of status reads.
Their results are tied to `FirstIndex`, the position of the first entry
that stops the loop.

## Model

| member | source | states |
|---|---|---|
| `Text.Lower` | delete_bedrock_kbs.py:117 | `str.lower` on the ASCII letters only: the result holds no upper-case ASCII letter and every other character stays where it was |
| `Text.LowerIdempotent` | delete_bedrock_kbs.py:117 | lowering an already lowered message changes nothing |
| `Text.ContainsIffOccurs` | delete_bedrock_kbs.py:117 | Python's `sub in s`, written as a left-to-right scan, holds exactly when `sub` occurs at some index of `s` |
| `Text.VectorStoreErrorIsScan` | delete_bedrock_kbs.py:117 | the vector-store test is the substring scan for "vector store" in the lowered message, in both directions |
| `Text.VectorStoreErrorInTail` | delete_bedrock_kbs_v2.py:191-193 | a message that mentions the vector store still does with any text in front of it (v2 tests the whole `str(e)`) |
| `Text.Split` | kb_test.py:140 | `str.split(sep)` gives at least one field, no field holds the separator, and joining the fields back gives the input |
| `Text.SplitJoin` | kb_test.py:140 | splitting undoes joining when no part holds the separator |
| `Text.SplitCount` | kb_test.py:140 | `s.split(sep)` has one more field than `s` has separators |
| `Text.SplitCons` | kb_test.py:140-141 | a separator-free field followed by a separator is split off whole, in front of the fields of the rest |
| `Text.LastField` | kb_test.py:142 | `s.split(sep)[-1]` is a separator-free suffix of `s`, preceded by a separator unless it is all of `s` |
| `Text.LastFieldAfter` | kb_test.py:142 | the last field of `a + sep + b` is `b` when `b` has no separator |
| `Text.TrimStart` | kb_test.py:735 | `lstrip` drops only leading whitespace and leaves no whitespace in front |
| `Text.TrimEnd` | kb_test.py:735 | `rstrip` drops only trailing whitespace and leaves no whitespace at the end |
| `Text.StripEnds` | kb_test.py:735 | the stripped answer neither starts nor ends with whitespace |
| `Text.StripIdempotent` | kb_test.py:734-735 | supporting lemma of `Provisioning.InvokeAgent`: the stripped response has no surrounding whitespace left, so stripping it again changes nothing |
| `ProviderModel.ErrorText` | delete_bedrock_kbs_v2.py:190-191 | definition of `str(e)` for a ClientError, "An error occurred (CODE) when calling the OP operation: MSG"; properties in `Text.VectorStoreErrorInTail` and `Provisioning.ConflictMeansExisting` |
| `ProviderModel.Collected` | delete_bedrock_kbs.py:43-57 | definition: the pages' items in order when the pagination completed, nothing when it failed; properties in `KbCleaner.ListedIffOnSomePage` |
| `ProviderModel.Requests` | delete_bedrock_kbs.py:43-46 | definition: one page request per page read, plus the one that failed; properties in `KbCleaner.ListedIffOnSomePage` and `KbCleanerV2.ListingRequests` |
| `ProviderModel.IssuedChain` | delete_bedrock_kbs.py:128-176 | the calls made over two stretches of work are those of the first stretch followed by those of the second |
| `ProviderModel.FlattenHolds` | delete_bedrock_kbs.py:45-46 | an item is collected by the page-by-page `extend` exactly when some page held it |
| `ProviderModel.FlattenAppend` | delete_bedrock_kbs.py:45-46 | collecting pages in two runs gives the concatenation of the two runs |
| `ProviderModel.RetainPolicyRun` | delete_bedrock_kbs.py:74-99 | the policy update leaves the script unchanged, only extends the trace, and takes no delete or listing reply |
| `ProviderModel.RetainPolicyCalls` | delete_bedrock_kbs.py:78-99 | one `get_data_source`; an update only after a successful read, re-sending the name and configuration that were read with the policy RETAIN; true exactly when both calls succeeded |
| `ProviderModel.KbDeleteAttempts` | delete_bedrock_kbs.py:157-176 | the knowledge-base delete loop leaves the script unchanged and only extends the trace |
| `ProviderModel.KbDeleteRetried` | delete_bedrock_kbs.py:163-170 | a failed knowledge-base delete with attempts left issues the delete and a 10 s pause, then continues with the next attempt |
| `ProviderModel.KbDeleteAttemptsCount` | delete_bedrock_kbs.py:157-176 | no calls when no attempt is left; otherwise one to `max_retries` delete calls, and all of them when it gives up |
| `ProviderModel.KbDeleteAttemptsOutcome` | delete_bedrock_kbs.py:157-176 | true exactly when the last delete call succeeded, and every earlier delete call failed |
| `ProviderModel.KbDeleteAttemptsTargets` | delete_bedrock_kbs.py:157-160 | the loop deletes only this knowledge base and no data source |
| `ProviderModel.FilterEmpty` | delete_bedrock_kbs.py:138-159 | a filter that keeps nothing means no call qualified (used for "data sources before the knowledge base") |
| `ProviderModel.DataSourcesFirstAppend` | delete_bedrock_kbs.py:138-159 | calls that delete no knowledge base, followed by calls that delete no data source, put every data-source delete before every knowledge-base delete |
| `KbCleaner.ListKnowledgeBasesRun` | delete_bedrock_kbs.py:37-57 | one page request per page, one more for the failing one; a failed pagination returns nothing; the script is not changed |
| `KbCleaner.ListDataSourcesRun` | delete_bedrock_kbs.py:59-72 | the same for the data sources of one knowledge base |
| `KbCleaner.DeleteDataSourceRun` | delete_bedrock_kbs.py:101-126 | the data-source retry machine from attempt `attempt` on leaves the script unchanged and only extends the trace |
| `KbCleaner.DataSourcePhase` | delete_bedrock_kbs.py:143-149 | the loop over listed data sources, continuing past failures, only extends the trace |
| `KbCleaner.Settled` | delete_bedrock_kbs.py:136-154 | listing, data-source deletions and the 5 s wait only extend the trace |
| `KbCleaner.DeleteKnowledgeBaseRun` | delete_bedrock_kbs.py:128-176 | `delete_knowledge_base` only extends the trace |
| `KbCleaner.DeleteEachRun` | delete_bedrock_kbs.py:198-214 | the counting loop only extends the trace |
| `KbCleaner.DeleteNextRun` | delete_bedrock_kbs.py:201-214 | one pass of the counting loop only extends the trace |
| `KbCleaner.DeleteAllRun` | delete_bedrock_kbs.py:178-214 | `delete_all_knowledge_bases` only extends the trace |
| `KbCleaner.VectorStoreFailure` | delete_bedrock_kbs.py:113-117 | definition: a ClientError whose message, lowered, contains "vector store"; properties in `Text.VectorStoreErrorIsScan` and `KbCleaner.DeleteDataSourceOutcome` |
| `KbCleaner.DeleteDataSourceRetried` | delete_bedrock_kbs.py:113-121 | a vector-store ClientError before the last attempt issues the failed delete, the policy update and a 2 s pause, then the next attempt |
| `KbCleaner.DeleteDataSourceStopped` | delete_bedrock_kbs.py:109-124 | an attempt that succeeds, or fails otherwise than by a retried vector-store error, is the last call, and the result is its success |
| `KbCleaner.DeleteDataSourceCount` | delete_bedrock_kbs.py:103-126 | at most `max_retries` delete calls, at least one when an attempt is left, and zero calls and False when `max_retries` ≤ 0 |
| `KbCleaner.DeleteDataSourceOutcome` | delete_bedrock_kbs.py:103-126 | True exactly when the last delete call succeeded; every earlier one failed with a vector-store ClientError; a failure that stops the loop early is not a vector-store error |
| `KbCleaner.RetriedOutcome` | delete_bedrock_kbs.py:117-121 | the same outcome facts after a retried vector-store failure |
| `KbCleaner.RetriedDeletes` | delete_bedrock_kbs.py:117-121 | a retried failure contributes exactly its own delete call before those of the remaining attempts |
| `KbCleaner.DeleteDataSourceCalls` | delete_bedrock_kbs.py:105-108 | every delete call names this data source, and no knowledge base is deleted |
| `KbCleaner.DeleteDataSourceReads` | delete_bedrock_kbs.py:117-121 | exactly one policy read per retry: one fewer `get_data_source` than delete calls |
| `KbCleaner.DeleteDataSourceIgnoresPolicy` | delete_bedrock_kbs.py:119-121 | the result and the delete calls do not depend on what the policy update returned |
| `KbCleaner.ListedIffOnSomePage` | delete_bedrock_kbs.py:43-57 | a knowledge base is listed exactly when the pagination completed and some page held it; the listing makes page requests only and no mutating call |
| `KbCleaner.DataSourcePhaseCalls` | delete_bedrock_kbs.py:143-149 | the listed data sources are attempted in listed order, each one to three times, and no knowledge base is deleted |
| `KbCleaner.DataSourceStage` | delete_bedrock_kbs.py:136-154 | the stage before the first knowledge-base delete attempts every listed data source in order and deletes no knowledge base |
| `KbCleaner.DeleteKnowledgeBaseOrder` | delete_bedrock_kbs.py:128-159 | a dry run returns True with no call at all; otherwise every data-source delete precedes every knowledge-base delete, and the listed data sources are attempted in order, one to three times each |
| `KbCleaner.KbDeletesAfterStage` | delete_bedrock_kbs.py:152-161 | the knowledge-base delete calls are exactly those of the retry loop run after the stage |
| `KbCleaner.DeleteKnowledgeBaseOutcome` | delete_bedrock_kbs.py:157-176 | outside a dry run: one to `max_retries` knowledge-base delete calls (none when `max_retries` < 1), all of them when it fails; True exactly when the last one succeeded; every earlier one failed |
| `KbCleaner.DeleteKnowledgeBaseTargets` | delete_bedrock_kbs.py:157-176 | with the default three attempts, one to three delete calls, all naming this knowledge base |
| `KbCleaner.DeleteEachStep` | delete_bedrock_kbs.py:201-214 | one pass of the loop: the knowledge base's run, then a 2 s pause outside a dry run unless it was the last |
| `KbCleaner.DeleteEachTally` | delete_bedrock_kbs.py:196-214 | `success_count + failure_count` equals the number of knowledge bases; a dry run counts all as successes and makes no call |
| `KbCleaner.DeleteEachIssued` | delete_bedrock_kbs.py:201-214 | the calls of one pass are those of the knowledge base, then the pause, then the rest |
| `KbCleaner.DeleteEachOrder` | delete_bedrock_kbs.py:201-207 | outside a dry run the knowledge bases are deleted in listed order, each one to three times |
| `KbCleaner.DeleteAllGate` | delete_bedrock_kbs.py:178-214 | nothing listed: no prompt, no deletion; outside a dry run and without `confirm`, any reply but exactly `DELETE` cancels with no mutating call; otherwise the counters add up to the number listed |
| `KbCleaner.Cleaner.constructor` | delete_bedrock_kbs.py:19-35 | the cleaner keeps its dry-run flag and its client |
| `KbCleaner.Cleaner.ListKnowledgeBases` | delete_bedrock_kbs.py:37-57 | the page loop returns what `ListKnowledgeBasesRun` returns and leaves the client where it does |
| `KbCleaner.Cleaner.ListDataSources` | delete_bedrock_kbs.py:59-72 | the same against `ListDataSourcesRun` |
| `KbCleaner.Cleaner.UpdateDataSourceDeletionPolicy` | delete_bedrock_kbs.py:74-99 | agrees with `RetainPolicyRun` |
| `KbCleaner.Cleaner.DeleteDataSource` | delete_bedrock_kbs.py:101-126 | the attempt loop agrees with `DeleteDataSourceRun` |
| `KbCleaner.Cleaner.DeleteKnowledgeBaseAttempts` | delete_bedrock_kbs.py:157-176 | the attempt loop agrees with `KbDeleteAttempts` |
| `KbCleaner.Cleaner.DeleteDataSources` | delete_bedrock_kbs.py:143-149 | the data-source loop agrees with `DataSourcePhase` |
| `KbCleaner.Cleaner.DeleteKnowledgeBase` | delete_bedrock_kbs.py:128-176 | agrees with `DeleteKnowledgeBaseRun` |
| `KbCleaner.Cleaner.DeleteEach` | delete_bedrock_kbs.py:196-214 | the counters and the client agree with `DeleteEachRun` |
| `KbCleaner.Cleaner.DeleteAllKnowledgeBases` | delete_bedrock_kbs.py:178-214 | agrees with `DeleteAllRun` |
| `KbCleanerV2.PageCalls` | delete_bedrock_kbs_v2.py:86-92 | reading k pages makes k requests, with a 0.5 s pause after every page from the second on |
| `KbCleanerV2.ListKnowledgeBasesRun` | delete_bedrock_kbs_v2.py:75-110 | the paginated listing only extends the trace |
| `KbCleanerV2.DeleteDataSourceRun` | delete_bedrock_kbs_v2.py:167-202 | the v2 retry machine only extends the trace |
| `KbCleanerV2.DataSourcePhase` | delete_bedrock_kbs_v2.py:219-226 | the data-source loop only extends the trace |
| `KbCleanerV2.Settled` | delete_bedrock_kbs_v2.py:212-230 | listing, deletions and the 8 s wait only extend the trace |
| `KbCleanerV2.DeleteKnowledgeBaseRun` | delete_bedrock_kbs_v2.py:204-263 | `delete_knowledge_base_with_timeout` only extends the trace |
| `KbCleanerV2.BatchesRun` | delete_bedrock_kbs_v2.py:290-318 | the batch loop only extends the trace |
| `KbCleanerV2.ItemRun` | delete_bedrock_kbs_v2.py:296-313 | the inner loop over one batch only extends the trace |
| `KbCleanerV2.NextItemRun` | delete_bedrock_kbs_v2.py:296-313 | one item of a batch only extends the trace |
| `KbCleanerV2.AfterBatch` | delete_bedrock_kbs_v2.py:315-318 | the end of a batch only extends the trace |
| `KbCleanerV2.DeleteAllRun` | delete_bedrock_kbs_v2.py:265-318 | `delete_all_knowledge_bases` only extends the trace |
| `KbCleanerV2.VectorStoreText` | delete_bedrock_kbs_v2.py:190-193 | definition: a ClientError whose whole `str(e)`, lowered, contains "vector store"; properties in `KbCleanerV2.MessageMentionsVectorStore` and `KbCleanerV2.DeleteDataSourceGaveUp` |
| `KbCleanerV2.Retryable` | delete_bedrock_kbs_v2.py:182-193 | definition: a timeout or a vector-store ClientError, the two failures retried; properties in `KbCleanerV2.DeleteDataSourceRetry` and `KbCleanerV2.DeleteDataSourceOutcome` |
| `KbCleanerV2.MessageMentionsVectorStore` | delete_bedrock_kbs_v2.py:190-193 | every failure the first cleaner retries as a vector-store error is retried by the second one too |
| `KbCleanerV2.DeleteDataSourceTimedOut` | delete_bedrock_kbs_v2.py:182-185 | a timeout before the last attempt issues the delete and a 5 s pause, and no policy update, then the next attempt |
| `KbCleanerV2.DeleteDataSourceVectorStore` | delete_bedrock_kbs_v2.py:190-197 | a vector-store ClientError before the last attempt issues the delete, the policy update and a 3 s pause, then the next attempt |
| `KbCleanerV2.DeleteDataSourceRetry` | delete_bedrock_kbs_v2.py:182-197 | either kind of retry contributes one delete call for this data source and no knowledge-base deletion |
| `KbCleanerV2.DeleteDataSourceStopped` | delete_bedrock_kbs_v2.py:178-200 | an attempt that is not retried is the last call, and the result is its success |
| `KbCleanerV2.DeleteDataSourceCount` | delete_bedrock_kbs_v2.py:169-202 | at most `max_retries` delete calls for the data source, at least one when an attempt is left |
| `KbCleanerV2.DeleteDataSourceOutcome` | delete_bedrock_kbs_v2.py:169-202 | True exactly when the last delete call succeeded; every earlier one timed out or failed because of the vector store |
| `KbCleanerV2.RetriedOutcome` | delete_bedrock_kbs_v2.py:182-197 | the same outcome facts after a retried failure |
| `KbCleanerV2.RetriedDeletes` | delete_bedrock_kbs_v2.py:182-197 | a retried failure contributes its own delete call before those of the remaining attempts |
| `KbCleanerV2.DeleteDataSourceGaveUp` | delete_bedrock_kbs_v2.py:190-200 | a failure that ends the loop while attempts are left is a ClientError that does not mention the vector store |
| `KbCleanerV2.RetriedGaveUp` | delete_bedrock_kbs_v2.py:182-200 | the same after a retried failure |
| `KbCleanerV2.DeleteDataSourceCalls` | delete_bedrock_kbs_v2.py:173-177 | every delete call names this data source, and no knowledge base is deleted |
| `KbCleanerV2.DataSourcePhaseCalls` | delete_bedrock_kbs_v2.py:219-226 | the listed data sources are attempted in order, each one to three times |
| `KbCleanerV2.DataSourceStage` | delete_bedrock_kbs_v2.py:212-230 | the stage before the first knowledge-base delete attempts every listed data source and deletes no knowledge base |
| `KbCleanerV2.DeleteKnowledgeBaseOrder` | delete_bedrock_kbs_v2.py:204-238 | a dry run returns True with no call; otherwise all data-source deletes precede every knowledge-base delete |
| `KbCleanerV2.KbDeletesAfterStage` | delete_bedrock_kbs_v2.py:228-241 | the knowledge-base delete calls are those of the retry loop after the stage |
| `KbCleanerV2.DeleteKnowledgeBaseOutcome` | delete_bedrock_kbs_v2.py:233-263 | timeouts and ClientErrors are both retried: one to `max_retries` delete calls, all of them on failure; True exactly when the last succeeded |
| `KbCleanerV2.DeleteKnowledgeBaseTargets` | delete_bedrock_kbs_v2.py:233-263 | with the default three attempts, one to three delete calls naming this knowledge base |
| `KbCleanerV2.Batches` | delete_bedrock_kbs_v2.py:290-292 | the `(batch_start, batch_end)` pairs: non-empty slices of at most `batch_size`, from `start` to the end of the list |
| `KbCleanerV2.BatchCover` | delete_bedrock_kbs_v2.py:290-292 | the batches cover the list with as few slices of `batch_size` as can |
| `KbCleanerV2.BatchCount` | delete_bedrock_kbs_v2.py:290 | there are ceil(N / `batch_size`) batches |
| `KbCleanerV2.BatchSlices` | delete_bedrock_kbs_v2.py:290-292 | the k-th batch is `(k * batch_size, min(k * batch_size + batch_size, N))` |
| `KbCleanerV2.BatchesConsecutive` | delete_bedrock_kbs_v2.py:290-292 | every batch but the last is full, and each batch starts where the previous one ended |
| `KbCleanerV2.BatchHeaderNumbers` | delete_bedrock_kbs_v2.py:290-294 | the header of the k-th batch of a run carries the batch number k + 1 (`batch_start // batch_size + 1`) and the positions k·size + 1 to min(k·size + size, N) |
| `KbCleanerV2.Positions` | delete_bedrock_kbs_v2.py:297 | the positions `lo + 1 .. hi` |
| `KbCleanerV2.PositionsAt` | delete_bedrock_kbs_v2.py:297 | the i-th position is `lo + i + 1` |
| `KbCleanerV2.PositionsAppend` | delete_bedrock_kbs_v2.py:297 | consecutive runs of positions concatenate |
| `KbCleanerV2.IndexesAppend` | delete_bedrock_kbs_v2.py:294-301 | the indexes and batch numbers of two runs of headers concatenate |
| `KbCleanerV2.ItemIndexes` | delete_bedrock_kbs_v2.py:296-301 | a batch's item headers carry its positions and no batch number |
| `KbCleanerV2.BatchHeaders` | delete_bedrock_kbs_v2.py:294-301 | one batch prints its number, then one header per knowledge base |
| `KbCleanerV2.ProgressIndexes` | delete_bedrock_kbs_v2.py:290-301 | `overall_index` runs through 1..N in order, once each |
| `KbCleanerV2.ProgressNumbers` | delete_bedrock_kbs_v2.py:290-294 | the batches are numbered 1..ceil(N / `batch_size`) in order |
| `KbCleanerV2.PauseCount` | delete_bedrock_kbs_v2.py:311-318 | the schedule holds N − 1 pauses, one fewer than the knowledge bases; their positions are stated by `KbCleanerV2.BatchesFlat` |
| `KbCleanerV2.PageCallsCount` | delete_bedrock_kbs_v2.py:86-92 | reading k pages takes k requests and k − 1 pauses |
| `KbCleanerV2.ListedIffOnSomePage` | delete_bedrock_kbs_v2.py:84-96 | a knowledge base is listed exactly when the pagination completed and some page held it; any failure returns an empty list |
| `KbCleanerV2.ListingRequests` | delete_bedrock_kbs_v2.py:84-96 | one request per page fetched and one for a failing page, k − 1 pauses, and no mutating call |
| `KbCleanerV2.ListingCalls` | delete_bedrock_kbs_v2.py:84-96 | the listing makes page requests and pauses, nothing else |
| `KbCleanerV2.DeleteAllOutcome` | delete_bedrock_kbs_v2.py:265-310 | the confirmation gate as in v1; `success_count + failure_count` equals N; a dry run counts N successes |
| `KbCleanerV2.DeleteAllCalls` | delete_bedrock_kbs_v2.py:265-281 | the listing comes first and the prompt right after it when asked; no prompt when nothing is listed or in a dry run; no mutating call unless the deletion went ahead outside a dry run |
| `KbCleanerV2.DryRunCalls` | delete_bedrock_kbs_v2.py:265-318 | a dry run that lists knowledge bases starts with the listing and makes no prompt and no mutating call |
| `KbCleanerV2.DryRunPauses` | delete_bedrock_kbs_v2.py:311-318 | in a dry run the batch loop makes nothing but its pauses |
| `KbCleanerV2.QuietChain` | delete_bedrock_kbs_v2.py:296-318 | two stretches without schedule pauses make a stretch without them |
| `KbCleanerV2.DeleteKnowledgeBaseQuiet` | delete_bedrock_kbs_v2.py:204-263 | deleting one knowledge base makes none of the schedule's pauses |
| `KbCleanerV2.BatchesTally` | delete_bedrock_kbs_v2.py:290-310 | every knowledge base from the current batch on is counted once; a dry run counts successes only |
| `KbCleanerV2.ItemTally` | delete_bedrock_kbs_v2.py:296-310 | the same from any item of a batch |
| `KbCleanerV2.AfterTally` | delete_bedrock_kbs_v2.py:315-318 | the same after a batch |
| `KbCleanerV2.BatchesPauses` | delete_bedrock_kbs_v2.py:311-318 | the number, kind and order of the loop's own pauses are the schedule's: per batch, a 2 s pause for each gap between its items, then a 10 s pause when items remain; a dry run makes nothing else |
| `KbCleanerV2.ItemPauses` | delete_bedrock_kbs_v2.py:311-313 | the number, kind and order of the pauses from any item of a batch on |
| `KbCleanerV2.AfterPauses` | delete_bedrock_kbs_v2.py:315-318 | the number, kind and order of the pauses from the end of a batch on |
| `KbCleanerV2.PauseAfter` | delete_bedrock_kbs_v2.py:311-318 | definition: the pause after the knowledge base at position j: none after the last, 10 s after the last of a batch, 2 s otherwise; properties in `KbCleanerV2.BatchesFlat` |
| `KbCleanerV2.FlatRun` | delete_bedrock_kbs_v2.py:290-318 | reference loop: each knowledge base deleted in list order, each deletion followed by `PauseAfter` of its position; only extends the trace |
| `KbCleanerV2.BatchesFlat` | delete_bedrock_kbs_v2.py:290-318 | from any batch boundary, the nested batch loop equals `FlatRun`: the same counters and the same calls, each pause exactly where `PauseAfter` puts it |
| `KbCleanerV2.NextItemFlat` | delete_bedrock_kbs_v2.py:296-318 | the same from any item of a batch |
| `KbCleanerV2.FlatIssued` | delete_bedrock_kbs_v2.py:303-318 | the calls from position j on are the deletion of knowledge base j, then `PauseAfter(j)`, then the calls for the rest |
| `KbCleanerV2.ItemIssued` | delete_bedrock_kbs_v2.py:303-313 | within a batch, the calls are those of the item, then the 2 s pause unless it ends the batch, then the rest |
| `KbCleanerV2.AfterIssued` | delete_bedrock_kbs_v2.py:315-318 | when knowledge bases remain after a batch, the 10 s pause, then the next batch starting where this one ended; after the last batch, nothing |
| `KbCleanerV2.BatchesOrder` | delete_bedrock_kbs_v2.py:290-304 | outside a dry run the knowledge bases are deleted once each in list order, each one to three times |
| `KbCleanerV2.ItemOrder` | delete_bedrock_kbs_v2.py:296-304 | the same from any item of a batch |
| `KbCleanerV2.AfterOrder` | delete_bedrock_kbs_v2.py:315-318 | the same after a batch |
| `KbCleanerV2.CleanerV2.constructor` | delete_bedrock_kbs_v2.py:37-67 | the cleaner keeps its dry-run flag and its client |
| `KbCleanerV2.CleanerV2.ListKnowledgeBases` | delete_bedrock_kbs_v2.py:75-110 | the page loop with its pauses agrees with `ListKnowledgeBasesRun` |
| `KbCleanerV2.CleanerV2.ListDataSources` | delete_bedrock_kbs_v2.py:112-132 | agrees with the data-source listing |
| `KbCleanerV2.CleanerV2.UpdateDataSourceDeletionPolicy` | delete_bedrock_kbs_v2.py:134-165 | agrees with `RetainPolicyRun` |
| `KbCleanerV2.CleanerV2.DeleteDataSource` | delete_bedrock_kbs_v2.py:167-202 | the attempt loop agrees with `DeleteDataSourceRun` |
| `KbCleanerV2.CleanerV2.DeleteKnowledgeBaseAttempts` | delete_bedrock_kbs_v2.py:233-263 | the attempt loop agrees with `KbDeleteAttempts` |
| `KbCleanerV2.CleanerV2.DeleteDataSources` | delete_bedrock_kbs_v2.py:219-226 | agrees with `DataSourcePhase` |
| `KbCleanerV2.CleanerV2.DeleteKnowledgeBase` | delete_bedrock_kbs_v2.py:204-263 | agrees with `DeleteKnowledgeBaseRun` |
| `KbCleanerV2.CleanerV2.DeleteItem` | delete_bedrock_kbs_v2.py:296-313 | deleting item j, counting it and pausing, then going on from j + 1, gives the same run as going on from j with the old counters and client |
| `KbCleanerV2.CleanerV2.DeleteBatch` | delete_bedrock_kbs_v2.py:290-318 | the inner loop over one batch leaves the counters and client from which the rest of the run (`AfterBatch`) equals the batch's `ItemRun` from its first item |
| `KbCleanerV2.CleanerV2.DeleteInBatches` | delete_bedrock_kbs_v2.py:290-318 | the nested batch loop and its counters agree with `BatchesRun` |
| `KbCleanerV2.CleanerV2.DeleteAllKnowledgeBases` | delete_bedrock_kbs_v2.py:265-318 | agrees with `DeleteAllRun`; `batch_size` defaults to 5 (`DefaultBatchSize`) |
| `Provisioning.FirstIndex` | kb_test.py:89-93 | the first position whose entry qualifies, with none before it, or the length when none qualifies |
| `Provisioning.FirstIndexIs` | kb_test.py:89-93 | a position with nothing qualifying before it, and qualifying itself unless it is the end, is the first one |
| `Provisioning.FirstIndexAppend` | kb_test.py:275-285 | what follows the first stopping status never changes where a poll stops |
| `Provisioning.RegionField` | kb_test.py:140-141 | the fourth ':'-separated field of a collection ARN is its region |
| `Provisioning.NameField` | kb_test.py:142 | the text after the last '/' of a collection ARN is its id |
| `Provisioning.EndpointOfCollectionArn` | kb_test.py:140-143 | the endpoint is `id + "." + region + ".aoss.amazonaws.com"` |
| `Provisioning.Endpoint` | kb_test.py:139-143 | definition of the ARN parsing: `parts[3]` of the ':' fields and the text after the last '/', None where `parts[3]` raises; properties in `Provisioning.EndpointOfCollectionArn` and `Provisioning.EndpointDefined` |
| `Provisioning.EndpointDefined` | kb_test.py:591-594 | parsing fails with IndexError exactly when the ARN has fewer than three colons |
| `Provisioning.FindPolicyVersion` | kb_test.py:89-93 | the version of the first summary with the policy's name, None when no name matches |
| `Provisioning.EnsureDataPolicy` | kb_test.py:79-109 | the create call first; only a ConflictException leads to the listing, and a failed listing raises; the update is sent, with the first match's version, exactly when a match exists and its version is not empty; "No changes detected" in a ValidationException is not an error |
| `Provisioning.WaitForCollection` | kb_test.py:118-129 | the ARN is taken from the first summary matching both the name and ACTIVE, in the first listing holding one; a failed listing before it raises; a 10 s pause follows every listing without one |
| `Provisioning.VectorIndexTarget` | kb_test.py:133-143 | a failed `list_collections` raises, and only then is the outcome that failure; the other outcomes are pinned down by `Provisioning.VectorIndexAtCollection` and `Provisioning.VectorIndexWithoutCollection` |
| `Provisioning.VectorIndexAtCollection` | kb_test.py:131-143 | the index goes to the endpoint of the first collection with the name, whatever its status |
| `Provisioning.VectorIndexWithoutCollection` | kb_test.py:136-138 | without a collection of that name it raises before any request |
| `Provisioning.WaitForKbActive` | kb_test.py:228-239 | stops at the first ACTIVE (returns), FAILED (raises) or failing read (raises), sleeping after every other status |
| `Provisioning.WaitForIngestion` | kb_test.py:275-317 | stops at the first COMPLETE or FAILED state and raises unless that state is COMPLETE |
| `Provisioning.AgentStatus` | kb_test.py:649-653 | definition: the status read at one attempt, UNKNOWN when the read raised or lacked it; properties in `Provisioning.WaitForAgentStatus` |
| `Provisioning.AgentStatuses` | kb_test.py:648-653 | definition: the status each `get_agent` attempt reads, "UNKNOWN" when the call fails or the field is missing; properties in `Provisioning.WaitForAgentStatus` |
| `Provisioning.WaitForAgentStatus` | kb_test.py:645-665 | at most `max_retries` reads; returns at the first read equal to the expected status, which is compared before the terminal statuses; raises at the first FAILED, DELETING or DELETED; a failed read counts as UNKNOWN; TimeoutError when every attempt saw neither |
| `Provisioning.CreateActionGroup` | kb_test.py:324-339 | definition: the new group's id, or "already exists" when `str(e)` contains ConflictException, or the ClientError raised; properties in `Provisioning.ConflictMeansExisting` and `Provisioning.EnableCodeInterpreter` |
| `Provisioning.ConflictMeansExisting` | kb_test.py:334-337 | a ConflictException is always recognised as an existing action group, because botocore writes the code into `str(e)` |
| `Provisioning.GroupReads` | kb_test.py:350-358 | the number of status reads of one action-group wait, up to and including the first ENABLED status or failed read, never more than the replies given |
| `Provisioning.WaitForActionGroup` | kb_test.py:348-358 | polls until the first ENABLED status (Ready) or failed read (raised), as `GroupEnd` and `GroupReads` say; there is no failure status; it sleeps 2 s after every successful read, the ENABLED one included |
| `Provisioning.EnableCodeInterpreter` | kb_test.py:341-358 | a failed creation raises before any wait; a group that already existed gets no status read; the groups are waited for in order, and the first wait that does not end ENABLED ends the step |
| `Provisioning.Chunks` | kb_test.py:725-730 | definition: the concatenated bytes of the events that carry some, in stream order; properties in `Provisioning.ChunksAppend`, `Provisioning.ChunksSkip` and `Provisioning.InvokeAgent` |
| `Provisioning.ChunksAppend` | kb_test.py:725-730 | the text of a stream is the text of its first part followed by that of the rest |
| `Provisioning.ChunksSkip` | kb_test.py:727-728 | an event without chunk bytes adds nothing |
| `Provisioning.InvokeAgent` | kb_test.py:716-758 | with `completion`, the stripped in-order concatenation of the chunk bytes; `completionResponse` only when `completion` is absent; "" otherwise and on any error |

## Left out

- Text.Lower: lowers only 'A'..'Z', while Python's `str.lower` also lowers non-ASCII letters and can change the length ('İ' becomes two code points). The model only uses it for the "vector store" test. The only non-ASCII characters whose lowercase holds ASCII are the Kelvin sign and 'İ', which give 'k' and 'i'. Neither letter occurs in that phrase, so the test agrees with Python's.
- The boto3 and AWS calls themselves, the paginator internals and the request payloads (the index mapping and the agent configuration). Each call is only a scripted reply.
- `TimeoutHandler` and its SIGALRM alarm (delete_bedrock_kbs_v2.py:19-34): OS signal delivery. A timeout is the `Timeout` reply. The first cleaner catches only ClientError, so `KbCleaner.Cleaner.Valid` requires a script without timeouts.
- Exceptions other than ClientError and the timeout. In the cleaners they would end the run, and they are not in the scripts.
- `time.sleep` durations and wall-clock deadlines. Pauses are `Sleep` entries in the trace, or counts returned by the polling methods. `wait_for_index_ready`'s time-bounded HTTP poll (kb_test.py:607-621) and `wait_for_alias_ready` with its deadline (kb_test.py:626-640) are not modelled beyond the endpoint parsing they share. The elapsed-time report (delete_bedrock_kbs_v2.py:303-307) is left out too.
- The signed HTTP requests to the collection endpoint (kb_test.py:178-196, kb_test.py:597-609).
- Printing, argparse, `main` and the credential checks in the constructors, which exit the process. `input()` is the `reply` parameter.
- The float success rate (delete_bedrock_kbs_v2.py:323).
- UTF-8 decoding with `errors="replace"` (kb_test.py:730). Chunk bytes are already-decoded strings.
- uuid-generated names (kb_test.py:202, kb_test.py:710).
- The unused threading imports (delete_bedrock_kbs_v2.py:16-17).
- `batch_size` ≤ 0: the batch functions require `batch_size > 0`. The source raises on 0 and divides by zero for a negative value.
- The straight-line provisioning calls with no decision in them: the encryption and network security policies (kb_test.py:29-54), whose ConflictException is ignored; the initial `create_collection` call; `create_knowledge_base`, `create_data_source`, `start_ingestion_job`, `create_agent`, `associate_agent_knowledge_base`, `prepare_agent` and `create_agent_alias`; and the best-effort chunk retrieval after a COMPLETE ingestion (kb_test.py:293-311), whose errors are caught and only printed.
- Provisioning.EnableCodeInterpreter: stops where the action groups are ready. The agent is then re-prepared and waited for with `wait_for_agent_status` (kb_test.py:360-363), which `Provisioning.WaitForAgentStatus` models on its own.
- The `while True` polls of kb_test.py run over a finite list of replies. When the list runs out while the source would still be polling, the model ends with `Unfinished`. `Provisioning.WaitForAgentStatus` counts a read past its list as a failed read (UNKNOWN).

## Notes on the source

- The policy update after a vector-store error is not a single call. The code sends one `get_data_source` read, and sends `update_data_source` only when that read succeeded (delete_bedrock_kbs.py:78-99). The model follows the code.
- The second cleaner tests the whole text of the exception for "vector store" (`str(e)`, which botocore prefixes with the error code and operation). The first cleaner tests only the error message. The model keeps the difference.
- The second cleaner's batch loop pauses between items and between batches even in a dry run (delete_bedrock_kbs_v2.py:311-318). The model keeps this too.
- `create_vector_index` picks the first collection with the name whatever its status (kb_test.py:136). `create_collection` waited for an ACTIVE one. The two can differ when several collections share the name.
