# A verified model of the SWE-EVO benchmark runner and the OpenHands enterprise server

The repository joins a benchmark runner, which produces and evaluates patches for 48 instances, with a server that
hosts agent conversations on a cluster.  This project models the parts of both that keep state across processes,
nodes and crashes, and proves what they guarantee and where exactly the guarantees end.

* **Conversation leases** (`Leases`, `LeaseSchedule`, `Failover`, `ClusteredManager`).  Nodes share one Redis
  server; a conversation belongs to the node whose `SET NX EX 15` won, for as long as that node keeps refreshing
  the key.  The key names no owner, a refresh overwrites whatever is there and a delete removes whatever is there.
  `Leases` is the timed step system, `LeaseSchedule` finds the exact timing condition, `Failover` treats crashes,
  and `ClusteredManager` holds the manager's methods as imperative code over its dictionaries and Redis.
* **Inference and evaluation** (`Inference`, `InferenceRuns`, `InferenceBatch`, `EvalWorker`, `EvalRuns`,
  `Pipeline`).  A thread pool and a second process communicate through atomically replaced JSON files.  Each file
  write is a step of its own, and a crash may come between any two steps.
* **Trace view** (`CanonicalJson`, `TraceView`).  Every model request repeats the whole conversation; the viewer
  shows what each request adds, comparing messages by a canonical text without `cache_control` fields.
* **Token store** (`TokenStore`).  Concurrent row-locked loads that may refresh an identity-provider token.
* **Webhook sweep** (`WebhookStore`, `WebhookSweep`, `WebhookStarvation`).  A periodic job takes the hundred least
  recently stamped rows, checks each and stamps it in a `finally`.
* **Proactive conversations** (`ProactiveStore`), **event polling** (`EventPolling`), **eviction** (`Eviction`),
  **legacy routing** (`LegacyCache`) and the **secrets store** (`SecretsStore`).

State machines treat every sequence of actions as a run: an action that is not enabled changes nothing.  Methods of
the program that change fields are methods of Dafny classes, each proved against the function or relation that the
lemmas are about.

What the environment does is a parameter: the clock, crashes, answers of Redis, GitLab, runtimes and the identity
provider, process exits, results of executions, encryption and its nonces.

## Where the code and what is said of it differ

* A refresh round that takes less than 10 s is not enough to keep two nodes from owning one conversation.  A loop
  registered just after a round has queued its commands waits for the rest of that round, for the sleep and for the
  whole of the next round.  The exact condition is `2 * round + register + release < 10` seconds
  (`LeaseSchedule.ExclusionExactly`).
* The key contains the user as well as the conversation id, so two starts under different users run the same
  conversation twice whatever the timing (`Leases.SidsAreExclusiveExactly`).
* `_close_session` without a local loop calls `redis.delete` without awaiting it, so no entry is deleted
  (`ClusteredManager.ClusteredConversationManager.CloseSession`).
* `load_tokens` promises one refresh per refresh token.  A call that fails after presenting the token leaves it in
  the row, and the next call presents it again (`TokenStore.PresentedAgainExactly`).
* The evaluation worker takes the rows it sees for the whole batch when the status file cannot be read, and can end
  early (`EvalRuns.DoneIsReliableExactly`).  With the files that inference itself leaves this does not happen: there
  is a status file before there is any row (`Pipeline.DoneIsTrusted`).
* An event at which a poll is interrupted between write and processing counts as copied from then on, so it is never
  processed (`EventPolling.LocalIsPrefix`).
* `active_count` in the inference status can exceed the concurrency limit, as soon as there are more instances than
  that (`InferenceRuns.ActiveExceedsExactly`).
* Event polling works out the time of the latest event and passes it on, but the update it calls stores the time of
  day (`EventPolling.TimeIsOfLastPoll`).
* A proactive row is as old as its creation, however recent its last event, so a cleanup can remove one that is in use
  and its outcome can be handed out a second time (`ProactiveStore.HandedOutTwiceAfterCleanup`).
* A webhook row with both resource ids or neither cannot be stamped and ends every sweep that reaches it
  (`WebhookStarvation.HandledExactly`).  No code in the repository writes such a row
  (`OpenHands/enterprise/integrations/gitlab/gitlab_service.py:100-135` gives each row one id); the columns allow it,
  so it can only come from elsewhere.
* An error other than a rate limit while GitLab is asked whether a resource exists, or whether the user administers
  it, reaches the sweep as the answer no, so the row is deleted
  (`OpenHands/enterprise/integrations/gitlab/gitlab_service.py:291-299`, `WebhookSweep.RowOutcome`).
* Legacy-mode entries last an hour, but an answer can be older by the time the runtime took to answer, because the
  entry is stamped afterwards (`LegacyCache.AnswersWithinExactly`).
* A row of secrets without a description, which the table allows, is dropped on load, and of several rows of one name,
  which it allows as well, the last one listed counts (`SecretsStore.LoadedExactly`).

## Model

| member | source | states |
|---|---|---|
| Leases.StepKeepsSafe | OpenHands/enterprise/server/clustered_conversation_manager.py:390-484 | Every step of the protocol, ticks permitting, keeps each held key in one node and one role, backed by a Redis entry that outlives the holder's lease |
| Leases.AbsentKeyIsFree | OpenHands/enterprise/server/clustered_conversation_manager.py:398-405 | When a SET NX can win, no node is starting, running or closing the conversation |
| Leases.ExecuteKeepsSafe | OpenHands/enterprise/server/clustered_conversation_manager.py:456-484 | A delayed, unconditional refresh that re-creates a deleted key or overwrites another holder's entry does no harm |
| Leases.DeleteKeepsSafe | OpenHands/enterprise/server/clustered_conversation_manager.py:641-650 | The blind delete of a timely close takes nobody else's entry away |
| Leases.TimelyRunsAreSafe | OpenHands/enterprise/server/clustered_conversation_manager.py:390-484 | The invariant holds in every state of every run in which registration, refresh and delete land before the previous expiry |
| Leases.ConnectionsFollow | OpenHands/enterprise/server/clustered_conversation_manager.py:621-639 | A client is connected exactly from its join to its leave or the close of its conversation, whatever other nodes do |
| Leases.TimelyRunsAreExclusive | OpenHands/enterprise/server/clustered_conversation_manager.py:398-405 | In every such run no two nodes run the same conversation of a user |
| Leases.SidsAreExclusive | OpenHands/enterprise/server/clustered_conversation_manager.py:398-405 | If every start of a conversation is under one user, no two nodes run the same conversation id |
| Leases.TwoUsersTwoLoops | OpenHands/enterprise/server/clustered_conversation_manager.py:398-405 | Under any two users both starts win, in a run that is timely |
| Leases.SidsAreExclusiveExactly | OpenHands/enterprise/server/clustered_conversation_manager.py:398-405 | For every conversation id and set of users who may start it, all timely runs keep it on one node if and only if the set has at most one user |
| LeaseSchedule.ScheduledRunsAreTimely | OpenHands/enterprise/server/clustered_conversation_manager.py:422-484 | Delays with 2 * round + register + release < 10 imply the timing assumption in every run |
| LeaseSchedule.DoubleOwnership | OpenHands/enterprise/server/clustered_conversation_manager.py:422-484 | For any other bounds on the delays there is a run within them in which two nodes run one conversation |
| LeaseSchedule.ExclusionExactly | OpenHands/enterprise/server/clustered_conversation_manager.py:44-48 | Delays bounded by b always exclude double ownership if and only if 2 * round + register + release < 10 |
| Failover.LiveOwnerIsNeverStopped | OpenHands/enterprise/server/clustered_conversation_manager.py:486-517 | In timely runs a conversation owned anywhere is never classified as stopped by any node |
| Failover.AbandonedConversationIsDetected | OpenHands/enterprise/server/clustered_conversation_manager.py:499-517 | 15 s after the last write for a conversation, a node classifies it as stopped if and only if it has a connection to it and does not run it |
| Failover.WinnerIsSoleOwner | OpenHands/enterprise/server/clustered_conversation_manager.py:398-405 | A SET NX wins only over a free conversation and makes its node the only owner; one that loses changes nothing |
| Failover.RaceHasOneWinner | OpenHands/enterprise/server/clustered_conversation_manager.py:712-749 | However many restarts of an absent conversation race, exactly one SET NX wins while the winner keeps it |
| ClusteredManager.ClusteredConversationManager.MaybeStartAgentLoop | OpenHands/enterprise/server/clustered_conversation_manager.py:390-420 | The loop is started exactly if the key was absent, as the steps of the protocol would; other keys are untouched, and an event store is found |
| ClusteredManager.ClusteredConversationManager.QueueRefresh | OpenHands/enterprise/server/clustered_conversation_manager.py:449-481 | Every local loop is queued; connections are queued only for conversations with an entry, each under one user that an entry names |
| ClusteredManager.Redis.Execute | OpenHands/enterprise/server/clustered_conversation_manager.py:483-484 | All queued keys, and no others, get the new expiry |
| ClusteredManager.ClusteredConversationManager.DisconnectFromStopped | OpenHands/enterprise/server/clustered_conversation_manager.py:486-542 | A restart is tried for exactly the connected conversations that run neither here nor by an entry and have a user on record, under that user; exactly the connections to the others without one are dropped |
| ClusteredManager.ClusteredConversationManager.CloseSession | OpenHands/enterprise/server/clustered_conversation_manager.py:614-650 | Loop, local connections and exactly their Redis entries go, as in the steps of the protocol; without a local loop Redis is left as it was |
| ClusteredManager.ClusteredConversationManager.GetRunningAgentLoops | OpenHands/enterprise/server/clustered_conversation_manager.py:240-283 | With or without the shortcut past Redis, the answer is exactly the conversations in the filter that run, here or by an entry in Redis, for the given user, or for any if none is given |
| InferenceRuns.RunsAreOk | run_innercc_infer_official48.py:505-583 | Every state of every run, with crashes between any two writes, keeps files, records, pool and pending writes consistent |
| InferenceRuns.StatusIsAlwaysGood | run_innercc_infer_official48.py:311-336 | Every status file on disk lists disjoint sets whose counts add up to the total without the clamp, and done means all completed |
| InferenceRuns.StatusIsGood | run_innercc_infer_official48.py:320-335 | Disjoint known ids give such a status |
| InferenceRuns.StatusShowsSession | run_innercc_infer_official48.py:311-336 | In every run the status on disk lists disjoint sets of instances in instance order, with their sizes as counts; between writes these are the active, completed and failed instances of the process |
| InferenceRuns.ResumesExactly | run_innercc_infer_official48.py:117-152 | For any files, an instance counts as completed exactly if it has a row and its own file, its last row counts, and its prediction is the aggregate one or else its own |
| InferenceRuns.RowsHavePredictions | run_innercc_infer_official48.py:565-574 | A summary row on disk has its prediction in the aggregate file, from the same execution |
| InferenceRuns.RecordsPersist | run_innercc_infer_official48.py:463-466 | No row and no prediction is ever lost, through any crashes and resumes |
| InferenceRuns.RecordedIsNeverRerun | run_innercc_infer_official48.py:477-483 | An instance with a row on disk is never executed again |
| InferenceRuns.CleanEndIsComplete | run_innercc_infer_official48.py:544-588 | Once a process ends without a failed instance there is exactly one row per instance, in order, and one prediction each |
| InferenceRuns.EveryHistorySameOutcome | run_innercc_infer_official48.py:544-588 | With deterministic results every history that ends cleanly leaves the contents of one uninterrupted run |
| InferenceRuns.StatusIsUpToDate | run_innercc_infer_official48.py:463-583 | In every state of every run the status file is that of the running session between writes, and there is one before there is any row |
| InferenceRuns.CleanEndIsOnFile | run_innercc_infer_official48.py:575-588 | After a clean end the status file gives the number of instances and done |
| InferenceRuns.ActiveExceedsExactly | run_innercc_infer_official48.py:505-516 | Some run writes an active count above the limit if and only if there are more instances than the limit |
| InferenceRuns.CleanEndIsPossible | run_innercc_infer_official48.py:456-588 | From every reachable state a crash, a resume and successes lead to a clean end |
| InferenceBatch.Batch.LoadResumeState | run_innercc_infer_official48.py:117-152 | The resume loop computes the records that the runs start from, for every state of the files |
| InferenceBatch.Batch.WriteInferenceStatus | run_innercc_infer_official48.py:311-336 | The payload lists exactly the active, completed and failed instances, in instance order, with their numbers, what is pending, and done exactly if all are completed |
| InferenceBatch.Batch.RecordSuccess | run_innercc_infer_official48.py:565-583 | One success updates all five collections as the session of the runs does, keeps every instance in one place, and ends with a consistent status |
| InferenceBatch.Batch.RecordFailure | run_innercc_infer_official48.py:551-562 | One failure is handled as the session of the runs handles it: nothing recorded changes, every instance stays in one place, and the status written is consistent |
| EvalWorker.EvalLoop.ReloadCompleted | run_official48_eval_worker.py:66-84 | A new worker takes over every saved instance, except, with retry, those whose report is gone |
| EvalWorker.EvalLoop.Reap | run_official48_eval_worker.py:113-128 | Exactly the ended processes become completed |
| EvalWorker.EvalLoop.LaunchReady | run_official48_eval_worker.py:130-162 | Launches are distinct, ready and new, in row order, never beyond the limit, and none is passed over below it |
| EvalWorker.EvalLoop.Iterate | run_official48_eval_worker.py:99-178 | One pass of the loop reaps, launches and decides as the runs assume |
| EvalRuns.WorkerStaysOk | run_official48_eval_worker.py:99-178 | Never more processes than the limit, and active and completed stay disjoint, in every pass |
| EvalRuns.LaunchedOnce | run_official48_eval_worker.py:131-162 | Each instance is launched at most once in the life of a worker |
| EvalRuns.ReloadedIsNotRelaunched | run_official48_eval_worker.py:66-84 | A restarted worker launches a saved instance only if retry was asked for and its report is gone |
| EvalRuns.DoneMeansEvaluated | run_official48_eval_worker.py:164-176 | With the total readable, done means nothing active and every instance completed |
| EvalRuns.DoneIsReliableExactly | run_official48_eval_worker.py:164-166 | A pass over given files is done only with every instance completed if and only if the total it goes by is not too low, or all rows are ready, or the files keep it from being done |
| EvalRuns.UnreadableTotalEndsEarly | run_official48_eval_worker.py:107-111 | With the status unreadable and one of several rows written, a new worker declares itself done in its second pass |
| EvalRuns.WorkerEnds | run_official48_eval_worker.py:99-178 | Once inference is over and processes exit, the worker is done within as many passes as instances remain, plus one |
| Pipeline.LaunchedHasPrediction | run_official48_eval_worker.py:100-162 | Whatever inference does meanwhile, each launched instance is in the aggregate predictions, from then on for ever |
| Pipeline.LaunchedPredictionMatchesRow | SWE-bench/evaluate_instance.py:132-137 | The prediction evaluated is that of the execution which the summary row reports |
| Pipeline.DoneIsTrusted | run_official48_eval_worker.py:99-176 | Whatever inference does, crashes and restarts included, and whenever the worker reads the two files, once it is done every instance has been evaluated |
| Pipeline.WholePipelineEnds | run_official48_eval_worker.py:99-178 | After a clean end of inference a worker that reads the summary and the status file ends with exactly all instances evaluated |
| CanonicalJson.PrintedIsUnique | serve_official48_dashboard.py:89-90 | The printer with its string escapes is injective: two texts agree only if the values do |
| CanonicalJson.NormalForm | serve_official48_dashboard.py:77-86 | Stripping and sorting give a normal form and remove exactly the `cache_control` fields, at every depth |
| CanonicalJson.MeaningOfFields | serve_official48_dashboard.py:77-84 | A dictionary means all its fields but the one called cache_control |
| CanonicalJson.CanonicalIsFaithful | serve_official48_dashboard.py:77-90 | Two messages have the same canonical text if and only if they are equal trees without `cache_control`, whatever the field order |
| TraceView.CommonPrefixLen | serve_official48_dashboard.py:93-98 | The index loop finds the longest common prefix up to `cache_control` |
| TraceView.ViewTurn | serve_official48_dashboard.py:294-321 | A turn adds exactly what follows the longest common prefix with the previous request and reply |
| TraceView.LoadCaseTraceView | serve_official48_dashboard.py:276-321 | Each call yields one turn: what the list under "messages" of its request has after the longest common prefix with the previous one and its reply, and its own reply |
| TraceView.ReplyExactly | serve_official48_dashboard.py:225-259 | The reply is the non-empty list under "content" with the role named, or the assistant's; without such a list there is none |
| TraceView.TurnLosesNothing | serve_official48_dashboard.py:297-299 | Each request is a part of what was known followed by what its turn adds, and no longer part would do |
| TraceView.TurnsRebuildConversation | serve_official48_dashboard.py:276-321 | When each request extends the one before with its reply, the turns make up the whole conversation, each message once |
| TokenStore.AuthTokenStore.LoadTokens | OpenHands/enterprise/storage/auth_token_store.py:99-156 | The check sees refresh token, access expiry and refresh expiry of the row; what it answers is stored and returned, and otherwise the row stays and is returned |
| TokenStore.AuthTokenStore.StoreTokens | OpenHands/enterprise/storage/auth_token_store.py:41-67 | A store leaves exactly the given tokens, whether or not there was a row |
| TokenStore.RunsAreOk | OpenHands/enterprise/storage/auth_token_store.py:99-156 | In every interleaving only the lock holder is past waiting and each presentation is accounted for as failed, replaced or in flight |
| TokenStore.PresentedOncePerFailure | OpenHands/enterprise/storage/auth_token_store.py:101-128 | In every interleaving a refresh token is presented at most once more than calls failed after presenting it |
| TokenStore.PresentedAgainExactly | OpenHands/enterprise/storage/auth_token_store.py:119-145 | A presented token can be presented again if and only if it is still in the row |
| TokenStore.FailureLeavesToken | OpenHands/enterprise/storage/auth_token_store.py:99-145 | A call that fails after presenting leaves the token in the row |
| TokenStore.InterleavingsAreSerial | OpenHands/enterprise/storage/auth_token_store.py:99-156 | Every interleaving amounts to the same calls one after the other in the order of their commits, results included |
| TokenStore.ResultIsRowAtCommit | OpenHands/enterprise/storage/auth_token_store.py:147-156 | Each caller gets the row as its own commit leaves it |
| WebhookStore.ResourceExactly | OpenHands/enterprise/storage/gitlab_webhook_store.py:19-31 | A row is of a group or project exactly if that id alone is given and not empty |
| WebhookStore.ResourceIdentifiesRow | OpenHands/enterprise/storage/gitlab_webhook_store.py:19-31 | Under the unique constraints the resource found for a row selects that row and no other |
| WebhookStore.StoredRowIsPending | OpenHands/enterprise/storage/gitlab_webhook_store.py:61-77 | A stored row needs a webhook, names its resource and carries the stamp; a resource that has a row gets no other |
| WebhookStore.WritesTouchOneRow | OpenHands/enterprise/storage/gitlab_webhook_store.py:79-137 | An update or delete for a row changes that row alone |
| WebhookStore.FetchExists | OpenHands/enterprise/storage/gitlab_webhook_store.py:188-198 | Every table has a listing of its pending rows, oldest first, up to the limit |
| WebhookStore.FetchFirst | OpenHands/enterprise/storage/gitlab_webhook_store.py:188-198 | Among rows of one stamp any may come first, so every row has a listing that puts it before those not older |
| WebhookStore.GitlabWebhookStore.UpdateWebhook | OpenHands/enterprise/storage/gitlab_webhook_store.py:79-101 | Writes and stamps the matching rows, or nothing if the resource cannot be determined |
| WebhookStore.GitlabWebhookStore.DeleteWebhook | OpenHands/enterprise/storage/gitlab_webhook_store.py:103-138 | Removes the matching rows, or nothing if the resource cannot be determined |
| WebhookStore.GitlabWebhookStore.UpdateLastSynced | OpenHands/enterprise/storage/gitlab_webhook_store.py:160-173 | Stamps the matching rows and changes nothing else |
| WebhookSweep.VerifyWebhookStatus.VerifyAndInstall | OpenHands/enterprise/sync/install_gitlab_webhooks.py:44-241 | The three checks and the installation, with every way in which each can end |
| WebhookSweep.VerifyWebhookStatus.InstallWebhooks | OpenHands/enterprise/sync/install_gitlab_webhooks.py:265-319 | The loop with its `except` and `finally` is the sweep that the starvation results are about |
| WebhookSweep.RowOutcome | OpenHands/enterprise/sync/install_gitlab_webhooks.py:44-241 | A row is deleted exactly if refused, has a webhook exactly if one is confirmed, is stamped whatever happens, no other row changes, and only an unexpected exception ends the sweep |
| WebhookStarvation.SweepProgress | OpenHands/enterprise/sync/install_gitlab_webhooks.py:265-319 | One sweep serves a due row or takes a hundred rows off those due before it, or at least one if it is cut short |
| WebhookStarvation.HandledInTime | OpenHands/enterprise/sync/install_gitlab_webhooks.py:265-319 | A pending row with k rows ahead is handled within k + 1 sweeps, each possibly cut short, and within k / 100 + 1 that are not |
| WebhookStarvation.StarvedForEver | OpenHands/enterprise/storage/gitlab_webhook_store.py:19-31 | Behind an older row with both ids or neither no row is ever handled, however many sweeps there are |
| WebhookStarvation.HandledExactly | OpenHands/enterprise/sync/install_gitlab_webhooks.py:265-319 | The bound holds for a row in every run if and only if neither it nor a pending row ahead of it, or level with it, is such a row |
| ProactiveStore.ProactiveConversationStore.StoreWorkflowInformation | OpenHands/enterprise/storage/proactive_conversation_store.py:54-131 | One transaction adds the run to the row of its key and no other, and hands the runs out exactly if none is pending, one has failed and it has not done so before |
| ProactiveStore.HandedOutTwiceAfterCleanup | OpenHands/enterprise/storage/proactive_conversation_store.py:133-151 | Two calls both hand out a group only if a cleanup in between found the row older, from its creation, than the cutoff |
| ProactiveStore.HandedOutOnce | OpenHands/enterprise/storage/proactive_conversation_store.py:73-131 | A call hands out a group, and exactly the collected runs, if and only if it is the first of the row's life with none pending and one failed |
| ProactiveStore.FrozenOnceHandedOut | OpenHands/enterprise/storage/proactive_conversation_store.py:73-75 | From then on the stored runs do not change |
| ProactiveStore.HandedOutAgainExactly | OpenHands/enterprise/storage/proactive_conversation_store.py:133-151 | After a cleanup the next event hands out a group again if and only if the row was older than the cutoff and the event is conclusive with what is listed then |
| EventPolling.IdOfFilename | OpenHands/enterprise/server/saas_nested_conversation_manager.py:990-995 | The id is read back from the file name it was written under |
| EventPolling.OtherFilesDoNotCount | OpenHands/enterprise/server/saas_nested_conversation_manager.py:990-995 | A file whose name does not begin with a number yields -1 |
| EventPolling.SaasNestedConversationManager.StartId | OpenHands/enterprise/server/saas_nested_conversation_manager.py:941-954 | One more than the highest id among the files, or 0 |
| EventPolling.SaasNestedConversationManager.PollAgentLoopEvents | OpenHands/enterprise/server/saas_nested_conversation_manager.py:937-980 | The poll copies and processes from there on, until it is through and stores the time of day, or an exception ends it |
| EventPolling.LocalIsPrefix | OpenHands/enterprise/server/saas_nested_conversation_manager.py:937-974 | After any polls, however cut short, the local files are an exact prefix of the remote events, and each was processed once and in order, except exactly those that a poll was interrupted at between write and processing, which are never processed |
| EventPolling.CatchesUp | OpenHands/enterprise/server/saas_nested_conversation_manager.py:937-974 | A poll without an exception copies everything there is, whatever happened before |
| EventPolling.TimeIsOfLastPoll | OpenHands/enterprise/server/utils/conversation_callback_utils.py:136-156 | The stored time is that of the last poll that no exception struck, even if it copied nothing, whatever the times of the events |
| Eviction.ConversationLimiter.EnsureNumConversationsBelowLimit | OpenHands/enterprise/server/saas_nested_conversation_manager.py:693-723 | Closes the n - limit + 1 conversations with the earliest stored times, earliest first, nothing below the limit, and fails on the empty list exactly if the limit is below one |
| Eviction.NewestFirstSorts | OpenHands/enterprise/server/saas_nested_conversation_manager.py:703 | The sort yields the same conversations, most recent first |
| Eviction.SortIsStable | OpenHands/enterprise/server/saas_nested_conversation_manager.py:703 | Conversations of one time stay in the order in which they were listed |
| Eviction.ClosesTheOldest | OpenHands/enterprise/server/saas_nested_conversation_manager.py:700-723 | With n at or above the limit exactly n - limit + 1 are closed, fewer than the limit stay, and by their stored times none closed is later than one that stays |
| Eviction.NoLimitClosesAll | OpenHands/enterprise/server/saas_nested_conversation_manager.py:705-706 | With a limit below one every conversation is closed before the failure |
| LegacyCache.LegacyConversationManager.CleanupExpiredCacheEntries | OpenHands/enterprise/server/legacy_conversation_manager.py:261-270 | Exactly the entries older than an hour go |
| LegacyCache.LegacyConversationManager.ShouldStartInLegacyMode | OpenHands/enterprise/server/legacy_conversation_manager.py:272-309 | An entry of the last hour is the answer; otherwise the runtime is asked, and is legacy exactly if it exists and its command does not contain openhands.server |
| LegacyCache.LegacyConversationManager.GetRunningAgentLoops | OpenHands/enterprise/server/legacy_conversation_manager.py:119-154 | While modes do not change, the single-id path and the merge both give each conversation from the manager its mode selects |
| LegacyCache.AnswersAreRecent | OpenHands/enterprise/server/legacy_conversation_manager.py:272-295 | In every interleaving an answer is what a query said at most an hour, plus the time a query may take, earlier |
| LegacyCache.RememberedExactly | OpenHands/enterprise/server/legacy_conversation_manager.py:278-288 | A lookup asks nobody exactly if an answer was remembered within the hour, and then gives that answer |
| LegacyCache.AnswersWithinExactly | OpenHands/enterprise/server/legacy_conversation_manager.py:272-295 | All answers are within an age in all runs of a given latency if and only if the age is at least an hour plus the latency |
| SecretsStore.DecryptionUndoes | OpenHands/enterprise/storage/saas_secrets_store.py:87-111 | Decryption undoes encryption on dictionaries of any shape and depth |
| SecretsStore.InnerDecrypts | OpenHands/enterprise/storage/saas_secrets_store.py:58-65 | It does so on the inner dictionary, though encryption started one level higher |
| SecretsStore.SaasSecretsStore.Store | OpenHands/enterprise/storage/saas_secrets_store.py:50-85 | The rows of the user are replaced by those of the item |
| SecretsStore.SaasSecretsStore.Load | OpenHands/enterprise/storage/saas_secrets_store.py:24-48 | The secrets of the user's rows, in whatever order they are listed |
| SecretsStore.LoadedExactly | OpenHands/enterprise/storage/saas_secrets_store.py:39-48 | For any rows, a load fails exactly if the last row of some name cannot be decrypted, and otherwise each name has the secret of its last row, and none if that has a NULL column |
| SecretsStore.LoadAfterStore | OpenHands/enterprise/storage/saas_secrets_store.py:24-85 | A load after a store yields exactly what was stored, whatever was there before, and other users' rows are as they were |

## Left out

- Connection entries in the protocol: they carry no ownership; `ClusteredManager` shows how they are written and deleted.
- Commands that a node had sent when it crashed: they are taken as lost together with the node.
- Commands within one Redis pipeline: they take effect at one instant; the protocol allows any delay before it.
- Limits on running conversations and the one-second pause before a restart: they can only suppress or delay a restart attempt.
- The shortcut in `get_connections`: connection ids and conversation ids are counted against each other, so it is not exact, and nothing is claimed of it.
- Parsing of Redis keys: keys are tuples, so ids that contain a colon are not covered; conversation ids are not empty.
- Pub/sub messages, completion requests, socket emission, logging and metrics.
- `StandaloneConversationManager` and `Session`: starting a loop is taken to register its id locally and to keep it until it is popped.
- The thread pool itself: that it never runs more instances than its limit is assumed.
- Inference without `--resume` over a directory that already holds files.
- Workspaces, command line runs, routers and the contents of patches: an execution yields a row and a prediction, or fails.
- Instance predictions files with several instances, or with the wrong one.
- The evaluation worker's own status file while it is being written: a state that cannot be read counts as empty, as in the code.
- Timestamp order of traces, tool index, totals and rendered text of the trace view; lone surrogates in strings.
- CanonicalJson.NormalForm: numbers are the tokens that the printer shows for them, so 1 and 1.0 are different numbers.
- A second row for one user and provider in the token store, and a first insert that races: the table has a unique index.
- Rows stored, or changed by hand, while a webhook sweep is under way: they arrive between sweeps, each batch with one stamp later than every row in the table.
- Webhook rows without a stamp, and the columns for secrets, urls and scopes.
- WebhookStarvation.HandledInTime: stamps are taken to succeed and the clock to move on between writes, without which a row keeps its place.
- The first insert of a proactive conversation by two racing calls: one transaction at a time, as the code promises no more.
- The repository prefix of a proactive row's key, and time zones.
- A stored conversation time that is missing or cannot be compared with that of an event: the exception is one before the write.
- Gaps or other orders in remote event ids, and file names that Python's `int` accepts although they are not plain digits.
- Exclusive start in the nested manager, which reads and then sets: the code does not promise it.
- LegacyCache.LegacyConversationManager.GetRunningAgentLoops: all lookups of one call read the same clock and modes do not change during it.
- SecretsStore.DecryptionUndoes: dictionaries are values, so updating them in place while iterating, and aliasing between them, are not captured.
- Two stores of one user's secrets at once: a store is one step here; what a load makes of the rows of both is covered.
- Fernet, base64 and the derivation of its key: an encryption with a nonce and a decryption that undoes it.
- Dashboard pages, billing, authentication middleware and the other integrations: no state worth an invariant.
