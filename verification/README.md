# AutoOnCall: its protocols, modelled and proved

AutoOnCall diagnoses incidents with an agent, puts risky actions before a human, and records what
people then did. This project models the parts of it that are protocols rather than plumbing, and
proves what they keep:

* **Approved changes** — building a change plan from a risk decision (`ApprovalFlow`), the approval
  request and its lifecycle (`ChangePlans`, `Approvals`), the pre-check and dry-run
  (`ChangeChecks`), the execution that any number of calls drive over a store with two atomic
  operations (`ChangeExecutions`, `ChangeExecutionStore`), which facts some runs of it lose
  (`ChangeExecutionRuns`), and manual reports (`ManualResults`).
* **Resilient calls** — the circuit breaker (`CircuitBreakers`), the attempt loops around it and the
  MCP retry interceptor (`ResilientCalls`), how a call ends by what its dependency did
  (`ResilientOutcomes`), and the shared worker slots (`WorkerSlots`).
* **Durable diagnosis runs** — claiming and resuming a paused run from several processes
  (`ResumeProtocol`), the bounded progress log (`ProgressLog`), run state and durable identity
  (`Checkpoints`), the run listing and start-up reconciliation (`RunListing`).
* **Wire and prompt** — the RESP2 codec with its limits (`RespCodec`), what the reader accepts and for
  which numbers (`RespGrammar`, `RespNumbers`), the prompt budgeter and its binary search
  (`ContextBudget`, `PromptBuilder`), and the rendered alert read back (`PromptJson`).
* **Agent-to-agent requests** — message parsing and scoping (`A2AMessages`), idempotent A2A records
  (`A2ATasks`).

`Basics`, `JsonValues` and `TextTools` hold what several modules share.

Code that changes state in place is a class or a method with loops, proved against a function of the
old state; concurrent protocols are transition systems whose steps are the store operations, and the
lemmas range over every finite run of them. Clocks, randomness, the network and generated
identifiers are parameters. SHA-256 over canonical JSON is a free constructor, so it is injective by
construction: a plan's digest is `Of(plan)`, a request's fingerprint is its fields, and a stable
identifier is the text it is a digest of.

## What turned out otherwise than one might expect

Each of these is stated with its exact condition: who may call, with what, or how a policy or a marker
is set.

* A second half-open probe gets in exactly when a caller that is not the probe releases
  (`SecondProbeIffStaleRelease`).
* An admitted call gives its reservation back exactly once, whatever the dependency does short of dying,
  exactly when the policy never sleeps between attempts. A call that is cut off in its backoff sleep
  reports nothing; if it was a half-open probe, nobody is ever admitted again (`AsyncDischargesIff`,
  `SyncDischargesIff`, `CutLeavesReservation`, `CutProbeShutsOut`).
* The total budget of the async wrapper holds for every dependency exactly when it never sleeps, that
  of the blocking one exactly when nobody waits for a slot; twice the budget is reached
  (`AsyncBudgetHoldsIff`, `SyncBudgetHoldsIff`, `AsyncDoubleBudgetIsReached`).
* A worker slot is lost for good exactly when a queued job is cancelled (`AllPermitsAccountedIff`).
* The rendered prompt grows with the per-field limit exactly for markers to which JSON escaping adds
  at most one character; the default marker, with its newline, is right at that edge
  (`WidthMonotoneIff`).
* A save that carries an older progress tail keeps the log in order exactly when it lags by at most
  one save, the log still fits, or the tail is empty (`LaggingTailIff`). The resume path stays within
  that.
* A resume that raises before it claims marks another one's claim failed, and a third can then claim
  beside it. All runs are safe exactly when all resumes come from one process and carry one approval
  (`SafeIffOneKey`, `CollidingRun`).
* Merging keeps a run's trace id and incident against whatever its nodes put out, but the saves at the
  end of a run store the graph's own state, where the last write wins. The trace id is constant over a
  whole run exactly when the last output that writes one writes the same or an empty one, the incident
  id exactly when nothing displaces it on the way and the last incident written is not another one
  (`TraceThroughoutIff`, `IncidentThroughoutIff`, `ForeignOutputIsStored`).
* Projection syncs change no fact of an execution, in every run, exactly when there is one caller, or
  callers cannot report both a pending recovery and a failure and a sandbox run cannot escalate;
  otherwise a late sync erases later manual reports, or the rollback note of an escalation
  (`SyncsAreHarmlessIff`).
* Every manual report committed in a run is in the stored result, in every run, exactly when there is
  one caller, or nobody asks for manual execution, or no report may follow another; otherwise a report
  from a stale copy loses the one before it (`ReportsAreKeptIff`, `StaleReportLoses`).
* The stored mode of an execution agrees with its status, in every run, exactly when all callers ask for
  the same mode (`StoredModeAgreesIff`).
* A repair of projections that succeeds is never stored, for approvals and executions alike
  (`Approvals.CleanRepairIsNotStored`, `ChangeExecutions.CleanRepairIsNotStored`).
* Execution identifiers tell every approval and plan apart exactly when no approval's id is another's
  followed by a colon and more (`StableIdTellsIff`).
* An A2A task whose creator goes away between recording it and beginning its diagnosis is never
  diagnosed: retries of the message only get the record back (`StartedIffCreatorBegan`,
  `CanStillStartIff`, `OrphanRun`).
* The owner read back from a scoped message is the principal exactly when the principal has no colon
  (`OwnerReadBackIff`). The metadata read from it names the principal, and says whether it is an admin,
  exactly when the metadata inside the message's data does not say otherwise and, for anybody but an
  admin, none of the message's metadata claims it (`MetadataTellsIff`).

## Model

Rows that begin with "Remark" can be read off the definitions; they are there for orientation.

| member | source | states |
|---|---|---|
| `CircuitBreakers.CircuitBreaker.TryAcquireRequest` | app/core/resilience.py:43-54 | Admits while closed, or half-open with the probe free, which it then reserves; the whole new state is that of the transition function. |
| `CircuitBreakers.CircuitBreaker.AllowRequest` | app/core/resilience.py:56-63 | Tells whether a request could proceed, reserving nothing. |
| `CircuitBreakers.CircuitBreaker.RecordSuccess` | app/core/resilience.py:65-70 | Closes the circuit, forgets failures and frees the probe. |
| `CircuitBreakers.CircuitBreaker.RecordFailure` | app/core/resilience.py:72-79 | Counts a failure and opens at the threshold or from half-open, at the current time. |
| `CircuitBreakers.CircuitBreaker.ReleaseRequest` | app/core/resilience.py:81-85 | Frees the probe and nothing else. |
| `CircuitBreakers.CircuitBreaker.RecordNonRetryableFailure` | app/core/resilience.py:87-95 | Counts only while half-open, and then opens. |
| `CircuitBreakers.CircuitBreaker.AdvanceRecoveryState` | app/core/resilience.py:97-102 | Open becomes half-open once the recovery timeout has passed. |
| `CircuitBreakers.BreakerRefinesHistory` | app/core/resilience.py:43-107 | After any history the circuit is closed iff fewer than the threshold failures were counted since the last success; otherwise `openedAt` is the time of the latest counted failure; a reserved probe implies half-open. |
| `CircuitBreakers.HalfOpenIsLate` | app/core/resilience.py:97-102 | Half-open means the recovery timeout has passed since the latest counted failure. |
| `CircuitBreakers.ReportsFreeTheProbe` | app/core/resilience.py:43-102 | Every report frees the probe, and nothing else does. |
| `CircuitBreakers.AdmissionCharacterised` | app/core/resilience.py:43-63 | Exactly who is admitted, in terms of the history of calls alone. |
| `CircuitBreakers.NoEarlyAdmission` | app/core/resilience.py:43-54 | Once open, nobody is admitted within the recovery timeout of any counted failure. |
| `CircuitBreakers.ProbeBalance` | app/core/resilience.py:43-95 | Inside a half-open episode admissions balance the releases that freed the probe and the flag exactly; admissions are at most one plus the releases. |
| `CircuitBreakers.ProbesMatch` | app/core/resilience.py:49-52 | As long as no caller releases another's probe, the flag and the set of probes in flight agree. |
| `CircuitBreakers.SingleProbe` | app/core/resilience.py:43-54 | Then at most one probe is in flight. |
| `CircuitBreakers.SecondProbeIffStaleRelease` | app/core/resilience.py:81-85 | The next admission puts a second probe beside the first iff the step before was a release by somebody else. |
| `CircuitBreakers.TwoProbesTrace` | app/core/resilience.py:81-85 | A concrete history with two probes in flight. |
| `ResilientCalls.AsyncAttempt` | app/core/resilience.py:202-229 | One round of the async loop, with its report to the breaker. |
| `ResilientCalls.CallWithResilience` | app/core/resilience.py:177-230 | Whatever other callers do to the breaker meanwhile, the loop computes the specified trace, and the breaker's history has grown by one admission, what the others did, and at most one report. |
| `ResilientCalls.SyncAttempt` | app/core/resilience.py:258-300 | One round of the blocking loop. |
| `ResilientCalls.CallSyncWithResilience` | app/core/resilience.py:233-301 | The same for the blocking wrapper. |
| `ResilientCalls.AsyncCallSettles` | app/core/resilience.py:197-230 | An admitted call ends, never by falling out of the loop; it invokes the dependency at most `maxAttempts` times, is over by twice the timeout, and reports exactly once, or not at all if its end is a cut backoff sleep or a fatal error. |
| `ResilientCalls.SyncCallSettles` | app/core/resilience.py:253-301 | The same for the blocking wrapper. |
| `ResilientCalls.AsyncDischargesIff` | app/core/resilience.py:197-230 | For every dependency that does not die an admitted call reports exactly once, iff there is one attempt or no retry delay. |
| `ResilientCalls.SyncDischargesIff` | app/core/resilience.py:253-301 | The same for the blocking wrapper. |
| `ResilientCalls.CutLeavesReservation` | app/core/resilience.py:214-229 | Under any other policy a dependency that fails at once, and a cut in the sleep after it, leave no report. |
| `ResilientCalls.ProbeEndsIffReported` | app/core/resilience.py:43-63 | A reserved half-open probe stays exactly through reads, questions and requests, and nobody is admitted meanwhile. |
| `ResilientCalls.CutProbeShutsOut` | app/core/resilience.py:227-229 | After a probe is cut in its backoff no later call of either wrapper ever reaches the dependency. |
| `ResilientOutcomes.RefusedIff` | app/core/resilience.py:190-203 | A call is turned away iff its policy has no time, no attempt or a negative delay, or the breaker does not admit it; it then invokes and reports nothing. |
| `ResilientOutcomes.AsyncCallEnds` | app/core/resilience.py:203-230 | In every environment the first attempt that is not retried decides the exit, the report, the number of invocations and the instant; attempts are retried while they raise retryably, some are left, there is budget, and the sleep is whole. |
| `ResilientOutcomes.AsyncStops` | app/core/resilience.py:204-230 | There is such an attempt among the first `maxAttempts`. |
| `ResilientOutcomes.AsyncValueIff` | app/core/resilience.py:210-213 | An admitted call returns a value iff some attempt returns within what is left of the budget after all before it were retried; it then reports one success, at that instant, after that many invocations. |
| `ResilientOutcomes.SyncCallEnds` | app/core/resilience.py:259-301 | The same for the blocking wrapper, with its slot waits and refused jobs. |
| `ResilientOutcomes.SyncStops` | app/core/resilience.py:260-301 | There is such an attempt. |
| `ResilientOutcomes.SyncValueIff` | app/core/resilience.py:276-279 | When the blocking wrapper returns a value. |
| `ResilientOutcomes.DelayDoubles` | app/core/resilience.py:227-227 | Until the cap every delay is twice the one before. |
| `ResilientCalls.AsyncBudgetHoldsIff` | app/core/resilience.py:204-229 | One timeout is enough for every dependency iff there is one attempt or no retry delay. |
| `ResilientCalls.AsyncDoubleBudgetIsReached` | app/core/resilience.py:227-229 | Twice the timeout is attained. |
| `ResilientCalls.SyncBudgetHoldsIff` | app/core/resilience.py:260-277 | One timeout is enough for the blocking wrapper iff no slot wait is possible. |
| `ResilientCalls.AcquireInTime` | app/core/resilience.py:130-136 | Polling for a slot ends by the deadline. |
| `ResilientOutcomes.AcquireIs` | app/core/resilience.py:130-136 | The first poll, every hundredth of a second and once at the deadline, that finds a slot or is the last decides whether there is one, and when. |
| `ResilientCalls.RunBoundedSyncCall` | app/core/resilience.py:116-154 | Over by start plus timeout, with exactly the outcome its slot and its job's duration give. |
| `ResilientCalls.ToolCallBounds` | app/agent/mcp_client.py:79-149 | The interceptor is over within its timeout, tries a read-only tool at most `maxRetries` times and invokes any other exactly once. |
| `ResilientCalls.RetryInterceptor` | app/agent/mcp_client.py:46-149 | The loop computes the specified exit, time and number of calls. |
| `ResilientOutcomes.ToolCallEnds` | app/agent/mcp_client.py:77-149 | The first invocation that is not retried decides the answer, the number of invocations and the instant; a read-only tool is retried after a retryable error while invocations are left and the wait ends before the deadline. |
| `ResilientOutcomes.ToolRefusedIff` | app/agent/mcp_client.py:68-73 | Refuses its arguments, before invoking anything, iff one is out of range. |
| `WorkerSlots.SlotStep` | app/core/resilience.py:266-284 | One step keeps free slots plus jobs holding one, except for cancelling a queued job. |
| `WorkerSlots.SlotConservation` | app/core/resilience.py:112-154 | Over every interleaving, free, held, queued and running slots and those lost to cancelled queued jobs add up to eight. |
| `WorkerSlots.AllPermitsAccountedIff` | app/core/resilience.py:148-149 | All eight are accounted for iff no queued job was ever cancelled. |
| `WorkerSlots.QueuedJobsHaveThreads` | app/core/resilience.py:112-113 | Every queued job has a thread of its own that is in no blocking call. |
| `WorkerSlots.RunningKeepsPermit` | app/core/resilience.py:304-308 | A job that began keeps its slot, whatever its caller does, until its call returns. |
| `WorkerSlots.EightDropsStarve` | app/core/resilience.py:280-281 | After eight cancelled queued jobs no slot is ever handed out again. |
| `WorkerSlots.JobMoves` | app/core/resilience.py:262-308 | A step moves the one job it names, from its permit to the queue, to a thread and out of it; no job comes back. |
| `WorkerSlots.JobCanMoveOn` | app/core/resilience.py:262-308 | Every job can move on, a queued one iff a thread is idle. |
| `WorkerSlots.ThreadsWithinPool` | app/core/resilience.py:112-112 | No more than eight threads are ever busy. |
| `RespCodec.RespReader.ConsumeRespBytes` | app/integrations/redis_info.py:452-456 | Lowers the shared budget in place and fails when it is overdrawn. |
| `RespCodec.RespReader.ReadResp` | app/integrations/redis_info.py:372-427 | The in-place reader agrees with the reading function in value, bytes left and budget, or error. |
| `RespCodec.RespReader.ReadFrameBody` | app/integrations/redis_info.py:391-427 | The same for one frame after its line. |
| `RespCodec.RespReader.ReadArrayItems` | app/integrations/redis_info.py:417-424 | The same for the items of an array. |
| `RespCodec.RespReader.ReadBulkBody` | app/integrations/redis_info.py:401-411 | The same for the body of a bulk string. |
| `RespCodec.ParseDecimal` | app/integrations/redis_info.py:443-450 | Parsing the decimal form of a number gives the number, unless it has too many digits. |
| `RespNumbers.ParsesNumeralsIff` | app/integrations/redis_info.py:443-450 | A text is taken for a number iff it is a sign or none, groups of digits with single underscores between them, at most 4300 digits in all, and then for the number whose decimal form stands behind any leading zeros. |
| `RespCodec.RoundTrip` | app/integrations/redis_info.py:372-427 | Over every well-formed RESP2 value tree, depth, budget and following bytes: the reader returns the value, leaves exactly what followed and lowers the budget by the encoded length iff the value is within the limits. |
| `RespCodec.RoundTripAll` | app/integrations/redis_info.py:417-424 | The same for a list of values. |
| `RespCodec.EncodeResp` | app/integrations/redis_info.py:545-551 | The printing loop produces the RESP2 encoding of an array of bulk strings. |
| `RespCodec.PrintsPlainly` | app/integrations/redis_info.py:545-551 | Only a negative number is printed with a sign, and only zero with a leading zero. |
| `RespCodec.CommandRoundTrip` | app/integrations/redis_info.py:372-456 | Reading a printed command gives its parts and leaves what followed iff it is within the item, bulk and total limits. |
| `RespCodec.ReadCharges` | app/integrations/redis_info.py:452-456 | Whatever the bytes, an accepted reply lowers the budget by exactly the bytes it consumed. |
| `RespCodec.ReadExtends` | app/integrations/redis_info.py:372-427 | Replies are self-delimiting: later bytes change nothing in a complete one. |
| `RespGrammar.AcceptsIff` | app/integrations/redis_info.py:372-427 | On arbitrary bytes: the reader answers a value, what follows and what is left of the budget iff the bytes begin with a valid parse tree of that value, which the budget pays for. |
| `RespGrammar.EarlyErrors` | app/integrations/redis_info.py:379-390 | What it answers when it gets no line: too deep, closed, too long, unterminated. |
| `RespGrammar.LineErrors` | app/integrations/redis_info.py:389-427 | What it answers to a line that it cannot pay for, that is an error reply, or that carries no number. |
| `RespGrammar.LengthErrors` | app/integrations/redis_info.py:395-424 | What it answers to a length that is too large, or whose bytes are missing or not terminated. |
| `RespGrammar.SpacesAre` | app/integrations/redis_info.py:395-427 | Which bytes count as white space around a number. |
| `ContextBudget.Text` | app/services/context_budget.py:32-54 | A text within the limit is untouched; any other comes out at exactly the limit. |
| `ContextBudget.TextKeepsEnds` | app/services/context_budget.py:47-54 | A truncated text is a beginning, the marker and, if asked for, an end, the two lengths differing by at most one. |
| `ContextBudget.Sections` | app/services/context_budget.py:77-99 | The longest run of leading non-empty sections whose joined text fits. |
| `ContextBudget.NonEmptyIs` | app/services/context_budget.py:77-99 | The sections are exactly the values that are not blank, stripped, in order. |
| `PromptBuilder.WidthGrows` | app/services/aiops_prompt_builder.py:135-138 | Raising the limit never shortens one rendered string, the step that drops the marker included. |
| `PromptBuilder.WidthMonotoneIff` | app/services/context_budget.py:40-50 | The rendered width is monotone for all texts iff escaping adds at most one character to the marker. |
| `PromptBuilder.DefaultMarkerQualifies` | app/services/context_budget.py:13-23 | The default marker is one of those. |
| `PromptBuilder.JsonWidthMonotone` | app/services/aiops_prompt_builder.py:129-138 | The rendered JSON never gets shorter as the common per-field limit grows. |
| `PromptBuilder.SearchLength` | app/services/aiops_prompt_builder.py:129-142 | The binary search finds the largest limit that fits over all limits, for every monotone width. |
| `PromptBuilder.FitPriorityFields` | app/services/aiops_prompt_builder.py:115-143 | Fields whole if they fit, otherwise every string cut to that largest common length, or empty. |
| `PromptBuilder.FillOptional` | app/services/aiops_prompt_builder.py:106-110 | The greedy loop keeps the longest run of optional fields that fits. |
| `PromptBuilder.FillWidthMonotone` | app/services/aiops_prompt_builder.py:106-110 | Adding optional fields never shortens the text. |
| `PromptBuilder.FormatPriorityJson` | app/services/aiops_prompt_builder.py:86-112 | The result never exceeds the limit; it is the whole text if that fits, and otherwise the fitted priority fields, a maximal prefix of optional ones, and the marker; every priority field of the alert is among the fitted ones as soon as there is any room. |
| `PromptBuilder.PriorityIs` | app/services/aiops_prompt_builder.py:100-100 | The priority fields are exactly the fields whose key has priority. |
| `PromptBuilder.PriorityInOrder` | app/services/aiops_prompt_builder.py:100-100 | They come in the order of the keys. |
| `PromptBuilder.OptionalIs` | app/services/aiops_prompt_builder.py:101-101 | The optional fields are exactly the others. |
| `PromptBuilder.OptionalInOrder` | app/services/aiops_prompt_builder.py:101-101 | They come in the order of the alert. |
| `PromptBuilder.PartsAreWhole` | app/services/aiops_prompt_builder.py:100-101 | Together they are the alert's fields, each once. |
| `PromptBuilder.FittedTells` | app/services/aiops_prompt_builder.py:115-143 | The fitted fields are within the limit unless not even empty strings fit, or none can be cut. |
| `PromptJson.QuoteReadsBack` | app/services/aiops_prompt_builder.py:146-153 | Every printed string reads back as itself (RFC 8259, section 7), whatever follows. |
| `PromptJson.EscapesIff` | app/services/aiops_prompt_builder.py:146-153 | Only the quote, the backslash and control characters are escaped. |
| `PromptJson.ObjectReadsBack` | app/services/aiops_prompt_builder.py:146-153 | A rendered object whose values are strings reads back as its fields, in order. |
| `PromptBuilder.PriorityKeysSurvive` | app/services/aiops_prompt_builder.py:115-143 | Every present priority key survives in order, and values that are not strings stay whole. |
| `ProgressLog.MergeExistingProgress` | app/services/aiops_snapshot_service.py:169-184 | The dictionary loop computes the specified merge by cursor. |
| `ProgressLog.MergeAppendsMissing` | app/services/aiops_snapshot_service.py:176-184 | Merging keeps the stored events in place and appends the unknown ones in order. |
| `ProgressLog.SaveExtendsWindow` | app/services/aiops_snapshot_service.py:159-184 | A save whose carried tail is still stored extends the stored window by exactly its new event. |
| `ProgressLog.StoredIsEndOfLog` | app/services/aiops_snapshot_service.py:159-184 | Over any sequence of such saves with fresh cursors the stored events are the last twenty of the full log, in order, with distinct cursors. |
| `ProgressLog.NewEventAloneIsGood` | app/services/aiops_progress.py:97-109 | Remark: the run path, where a save carries only its new event, always qualifies. |
| `ProgressLog.LaggingTailIff` | app/services/aiops_progress.py:97-109 | A save with an older tail extends the window correctly iff it lags by at most one save, the log still fits, or the tail is empty. |
| `ProgressLog.ResumeSavesInOrder` | app/services/aiops_service.py:924-1143 | The claim, report and completion saves of a resume all land in order. |
| `ProgressLog.RepeatedCursorInPlace` | app/services/aiops_service.py:1217-1236 | A cursor used again, such as that of a failed resume, updates its event where it stands. |
| `ResumeProtocol.SnapshotStore.Create` | app/services/sqlite_store.py:838-863 | Creates once. |
| `ResumeProtocol.SnapshotStore.UpdateIfStatus` | app/services/sqlite_store.py:865-919 | Saves iff the stored status is an expected one. |
| `ResumeProtocol.ResumeService.ClaimResumeApproval` | app/services/aiops_service.py:1368-1373 | Claims an approval in the process, once. |
| `ResumeProtocol.ResumeService.ReleaseResumeApproval` | app/services/aiops_service.py:1375-1377 | Releases it. |
| `ResumeProtocol.ResumeService.ClaimResumeSnapshot` | app/services/aiops_service.py:1252-1275 | Claims iff nothing is stored or one of the three resting statuses is. |
| `ResumeProtocol.ResumeService.MarkResumeFailed` | app/services/aiops_service.py:1196-1236 | Fails the session iff it is resume_running, whoever holds it. |
| `ResumeProtocol.ResumeService.ResumeAfterApproval` | app/services/aiops_service.py:859-1153 | Conflict, error or completion, with exactly the status each leaves. |
| `ResumeProtocol.ResumeService.ExecuteApprovalResume` | app/services/aiops_service.py:822-857 | Run alone, a resume never leaves the session claimed, always releases the approval, changes nothing on a conflict, and touches no other session. |
| `ResumeProtocol.StepKeepsSafe` | app/services/aiops_service.py:822-1275 | Every step of any resume that meets the hypotheses keeps the safety invariant. |
| `ResumeProtocol.AtMostOneLiveResume` | app/services/aiops_service.py:822-1275 | In every interleaving in which the original run has done its last save before a resume claims, reconciliation fires only when the holder is dead, and only a resume that held the claim marks it failed: at most one resume is live, a live one means resume_running, a completed one approval_resumed. |
| `ResumeProtocol.ResumedIsNeverReclaimed` | app/services/aiops_service.py:1252-1275 | A session at approval_resumed stays there and is never claimed again. |
| `ResumeProtocol.OneProcessNeedsNoMarkDiscipline` | app/services/aiops_service.py:1368-1377 | With one process and one approval the in-process claim replaces the third hypothesis. |
| `ResumeProtocol.SafeIffOneKey` | app/services/aiops_service.py:1368-1377 | Over all runs from a claimable session that meet the first two hypotheses and whose resumes enter under given pairs of process and approval, every state is safe iff there is at most one pair. |
| `ResumeProtocol.CollidingRun` | app/services/aiops_service.py:848-854 | For any two different pairs, a run with two live resumes. |
| `ResumeProtocol.TwoEnteredIsReached` | app/services/aiops_service.py:822-838 | Two processes get to the state from which the hypotheses are shown to be needed. |
| `ResumeProtocol.NonHolderMarks` | app/services/aiops_service.py:848-854 | A resume that raises before its claim fails another's; only the third hypothesis is broken. |
| `ResumeProtocol.MarkByNonHolderAdmitsTwo` | app/services/aiops_service.py:1196-1236 | A third resume is then live beside the first, whose final save hides it. |
| `ResumeProtocol.LateSaveOrReconcileAdmitsTwo` | app/services/aiops_service.py:674-728 | Without either of the other hypotheses two are live as well. |
| `ResumeProtocol.ClaimsUseOpenings` | app/services/aiops_service.py:1252-1275 | Without any hypothesis the claims won are bounded by the times the session was open. |
| `ResumeProtocol.WhatReopens` | app/services/aiops_service.py:1196-1236 | Exactly which steps open a claimed session again. |
| `ResumeProtocol.WorkerMoves` | app/services/aiops_service.py:822-857 | A resume keeps process and approval, goes through its phases in order, and leaves only by losing its claim, finishing, raising, or with its process. |
| `ResumeProtocol.EntersAndLeaves` | app/services/aiops_service.py:1368-1377 | It enters iff no other one in its process has its approval; a process that ends takes exactly its own with it. |
| `ResumeProtocol.StatusWrites` | app/services/aiops_service.py:859-1275 | Who writes the stored status, and what. |
| `Checkpoints.MergeCheckpointWithNodeOutput` | app/services/aiops_service_helpers.py:115-143 | The loop over a node's output computes the specified merge. |
| `Checkpoints.EndsWith` | app/services/aiops_service_helpers.py:146-151 | Tells whether some front completes the suffix to the list. |
| `Checkpoints.MergeKeeps` | app/services/aiops_service_helpers.py:121-143 | Identifiers stay, additive lists keep the old list as a prefix, an incident is not replaced by one with another id. |
| `Checkpoints.MergeGives` | app/services/aiops_service_helpers.py:121-143 | What a merge leaves under every key: an additive list ends with the output's list, appended whole unless it already ended so; a present identifier stays; an incident stays iff another one conflicts with it; other fields are the output's; what the output lacks stays. |
| `Checkpoints.RemergeIsNoOp` | app/services/aiops_service_helpers.py:136-142 | Merging the same output twice is merging it once. |
| `Checkpoints.FreshRunHasIdentity` | app/services/aiops_snapshot_service.py:51-82 | The first snapshot shows the run's own trace and incident ids. |
| `Checkpoints.SnapshotShows` | app/services/aiops_snapshot_service.py:51-82 | Where a snapshot takes its ids and its incident from. |
| `Checkpoints.TraceIsConstant` | app/services/aiops_snapshot_service.py:145-146 | Over the saves before the end of the run, whatever the nodes put out, the durable trace id is constant. |
| `Checkpoints.IncidentIsConstant` | app/services/aiops_snapshot_service.py:133-156 | Over the saves before the end of the run, with any outputs that leave the incident alone or give a non-empty object, the durable incident id is constant. |
| `Checkpoints.EmptiedIncidentIsReplaced` | app/services/aiops_snapshot_service.py:150-154 | An output that empties the incident lets a later one put another id in its place. |
| `Checkpoints.ScalarIncidentLosesId` | app/services/aiops_service_helpers.py:126-135 | An output that puts something other than an object there loses the id at once. |
| `Checkpoints.IncidentSurvivesIff` | app/services/aiops_snapshot_service.py:133-156 | The merged id survives an output and every later one that keeps the incident, in the saves before the end of the run, iff that output keeps it. |
| `Checkpoints.LastWriteWins` | app/agent/aiops/state.py:19-67 | In the graph's own state a field without reducer has the value last written, or its first one. |
| `Checkpoints.TerminalSavesAgree` | app/services/aiops_service.py:364-429 | The save before the report and the last one show the same trace and incident ids. |
| `Checkpoints.TraceThroughoutIff` | app/services/aiops_service.py:316-429 | Over a whole run, the save at its end included, the stored trace id is constant iff the last output that writes a trace id writes the same or an empty one. |
| `Checkpoints.IncidentThroughoutIff` | app/services/aiops_service.py:316-429 | Over a whole run the stored incident id is constant iff only objects and empty values are written as incident, none with another id right after an empty one, and none with another id last. |
| `Checkpoints.ForeignOutputIsStored` | app/services/aiops_service.py:404-429 | An output that writes another trace id and incident: the merge ignores it and the save at the end stores it. |
| `RunListing.BuildRunsPayload` | app/api/aiops_route_helpers.py:116-172 | The rows are the first `limit` of the filtered full listing; without a filter a limit above a hundred is cut to it. |
| `RunListing.FetchMore` | app/api/aiops_route_helpers.py:145-163 | The paging loop ends with enough rows or all of them. |
| `RunListing.LimitIs` | app/services/sqlite_store.py:960-960 | A limit is kept within 1 to 100; none means twenty. |
| `RunListing.SnapshotStore.TransitionIfStatus` | app/services/sqlite_store.py:865-919 | A conditional transition moves its snapshot to the front of the listing. |
| `RunListing.ReconcileIncompleteRuns` | app/services/aiops_service.py:674-728 | Every snapshot is visited once, as and in the order it was listed; exactly the abandoned ones are failed and come first. |
| `RunListing.ReconcilePage` | app/services/aiops_service.py:679-687 | A page read at the offset is the next stretch of the original listing. |
| `RunListing.VisitsKeepRest` | app/services/aiops_service.py:674-728 | Only the part already scanned has been permuted. |
| `RunListing.ScannedHas` | app/services/aiops_service.py:688-725 | What becomes of one snapshot. |
| `RunListing.AbandonedIff` | app/services/aiops_service.py:689-700 | Only a running diagnosis or resume counts as abandoned, and only after at least the stale time. |
| `ChangeChecks.RollbackFound` | app/services/change_execution_checks.py:185-189 | The rollback dictionary gives the last step with an identifier, iff there is one. |
| `ChangeChecks.RunChecks` | app/services/change_execution_checks.py:59-63 | Each check lands in one of two lists, in order. |
| `ChangeChecks.BuildPreCheckResult` | app/services/change_execution_checks.py:49-236 | Exactly the unmet checks fail; none does iff the approval binds the plan and every structured step is in scope. |
| `ChangeChecks.UnstructuredFails` | app/services/change_execution_checks.py:290-304 | A plan without structured steps never passes. |
| `ChangeChecks.PassesIff` | app/services/change_execution_checks.py:65-204 | All twenty-one checks are met iff the smaller condition holds. |
| `ChangeChecks.EachFailsAlone` | app/services/change_execution_checks.py:59-237 | When an approval that passes is changed in one place, exactly the check about that place fails. |
| `ChangeChecks.PlanFailsAlone` | app/services/change_execution_checks.py:59-237 | The same for the plan's own status and age, once the approval is bound to it again. |
| `ChangeChecks.StepFailsAlone` | app/services/change_execution_checks.py:59-237 | And for the risk, approval, tool and target of one step, where no rollback is asked for. |
| `ChangeChecks.EnvironmentsTell` | app/services/change_execution_checks.py:59-237 | The environment check fails iff some step names another environment than the plan. |
| `ChangeChecks.RollbackChecksTell` | app/services/change_execution_checks.py:59-237 | What a high risk asks for, in terms of the rollback plan. |
| `ChangeChecks.MadeSteps` | app/services/change_execution_checks.py:290-305 | What the steps of a plan without structured steps are. |
| `ChangeChecks.OnlyTheApprovedPlanPasses` | app/services/change_execution_checks.py:70-76 | Remark: one approval lets at most one plan through. |
| `ChangeChecks.DryRunStepBlockReasons` | app/services/change_execution_checks.py:318-343 | The listed reasons are exactly those that hold, each once and in the order of the checks; none is found iff the step may be dry-run. |
| `ChangeChecks.BuildDryRunResult` | app/services/change_execution_checks.py:239-268 | Passes iff every step may be dry-run and nothing forces a failure; the blocked list is the ids of the steps that may not, in order and then one more name if a failure is forced; the validated list is the ids of the steps none of whose namesakes is blocked, in order. |
| `ChangeChecks.SandboxIffNonProduction` | app/services/change_execution_checks.py:271-280 | The sandbox is entered iff it was asked for and the environment is a known non-production one. |
| `ChangeChecks.DryRunAfterPreCheck` | app/services/change_execution_checks.py:318-343 | After a passed pre-check the dry-run comes down to allowlists, target and environment name. |
| `ApprovalFlow.InferredActionAllowed` | app/services/change_plan_builder.py:136-147 | Every inferred action type is on the dry-run allowlist. |
| `ApprovalFlow.InferredIs` | app/services/change_plan_builder.py:136-147 | The inferred action type is that of the first group of words one of which occurs in the text, and a manual change when none does. |
| `ApprovalFlow.PlanSays` | app/services/change_plan_builder.py:23-105 | The plan and its request say what the decision says; an unknown risk counts as medium. |
| `ApprovalFlow.ApprovalIsStorable` | app/services/approval_workflow.py:48-98 | A request built from a decision is accepted, and approving it in time gives the approved request. |
| `ApprovalFlow.BuiltStepInScope` | app/services/change_plan_builder.py:32-63 | The built step stays in scope, with its rollback step, whenever a tool is named. |
| `ApprovalFlow.PreCheckIff` | app/services/change_plan_builder.py:10-105 | An approved decision passes the pre-check iff it names action, step and tool, carries the current policy version and is at most an hour old. |
| `ApprovalFlow.DryRunIff` | app/services/change_execution_checks.py:239-343 | It then passes the dry-run iff the tool is one of two, the service name has no surrounding space and the environment has a name other than "unknown". |
| `Approvals.ApprovalStore.CreateOnce` | app/services/sqlite_store.py:336-397 | Creates iff no pending request has the key and the id is new. |
| `Approvals.ApprovalStore.SaveDecisionIfPending` | app/services/sqlite_store.py:399-429 | Saves iff the request is still pending. |
| `Approvals.ApprovalStore.Save` | app/services/sqlite_store.py:301-334 | Overwrites a request only with one of the same status. |
| `Approvals.DecideRequest` | app/services/approval_service.py:168-214 | Accepted iff pending, unexpired and fingerprinted, and then exactly the decision is stored; an expired request is cancelled instead; nothing else changes. |
| `Approvals.DecisionGives` | app/services/approval_service.py:177-214 | A decision gives request and plan the status of its name, an expired request is cancelled by the system; who, when, the plan's fingerprint and the projections follow, and nothing else changes. |
| `Approvals.FingerprintedIff` | app/services/approval_service.py:395-405 | A new request is refused iff it names the fingerprint of another plan than its own. |
| `Approvals.ListPending` | app/services/approval_service.py:141-156 | Cancels every listed request that has expired, returns the others in order, and touches nothing else. |
| `Approvals.ActiveIs` | app/services/approval_service.py:141-156 | What is listed are exactly the pending requests whose window has not passed, in order. |
| `Approvals.SweptIs` | app/services/approval_service.py:141-156 | An expired pending request is cancelled by the system, as any decision on it would; others stay. |
| `Approvals.CreatesIff` | app/services/sqlite_store.py:336-378 | A request is created iff it is pending and rightly fingerprinted, its id is new, and no pending one was created under its key. |
| `Approvals.CancelsIff` | app/services/approval_service.py:141-156 | Listing cancels what it has read as pending and expired, and nothing else. |
| `Approvals.RepairsIff` | app/services/approval_service.py:355-358 | A read repairs exactly what has projections pending. |
| `Approvals.StepKeeps` | app/services/approval_service.py:63-355 | Every step of any caller keeps the invariant, and every stored request evolves. |
| `Approvals.EveryRunKeeps` | app/services/approval_service.py:63-214 | In every interleaving fingerprints cover plans, decided requests agree with their plans, and at most one pending request exists per key. |
| `Approvals.DecidedOnce` | app/services/approval_service.py:168-214 | Between any two points of a run a request stays the same up to projections, or is decided once; an expired one only cancelled. |
| `Approvals.RepairChangesNoFact` | app/services/approval_service.py:273-298 | Syncing projections, by whom and however it fails, changes no fact. |
| `Approvals.FingerprintNeverStopsADecision` | app/services/approval_service.py:407-414 | The fingerprint assertion never fails in a reachable state. |
| `Approvals.CleanRepairIsNotStored` | app/services/approval_service.py:339-353 | A repair stores only what failed; when nothing fails it stores nothing. |
| `ManualResults.CountsTell` | app/services/change_execution_service.py:1004-1007 | Comparing the number of ids with that of results finds duplicates exactly. |
| `ManualResults.ValidateManualStepResults` | app/services/change_execution_service.py:1000-1035 | Accepts exactly the reports that say what their outcome requires about the approved steps, and names why it refuses another. |
| `ManualResults.AcceptableIff` | app/services/change_execution_service.py:1004-1035 | A report is acceptable iff its results list outcomes of approved steps, one a step, that go with it: all the steps, and all succeeded or rolled back; for a partial report of several steps all the steps, some succeeded and some not. |
| `ManualResults.AcceptedIsBijection` | app/services/change_execution_service.py:1024-1035 | An accepted success or rollback matches results and steps one to one. |
| `ManualResults.AcceptableReport` | app/services/change_execution_service.py:1000-1035 | Whatever steps are approved, every outcome has a report that is accepted. |
| `ManualResults.HistoryIsLastTwenty` | app/services/change_execution_service.py:478-489 | After any number of recordings the result is the latest and its history the last twenty before it, in order. |
| `ManualResults.PushSameIff` | app/services/change_execution_service.py:482-489 | Two past results lead to the same next one iff they agree on the latest report and the nineteen before it. |
| `ChangeExecutions.StepKeeps` | app/services/change_execution_service.py:83-420 | Every store operation of any call keeps the invariant. |
| `ChangeExecutions.EveryRunKeeps` | app/services/change_execution_service.py:83-866 | In every interleaving of starts, repairs and manual reports the status tells the truth about the stored checks, the latest report, the observation and the rollback, and the sandbox is entered only off production. |
| `ChangeExecutions.StatusMoves` | app/services/policies/lifecycle.py:249-273 | The stored status moves along the listed edges only; nothing leads out of a failed pre-check or dry-run. |
| `ChangeExecutions.ReportFollowsIff` | app/services/policies/lifecycle.py:247-275 | An outcome may be reported from a status iff its own status may follow that one. |
| `ChangeExecutions.NextStatusMatches` | app/services/change_execution_checks.py:271-280 | The status after a dry-run is the one the checks give for the plan. |
| `ChangeExecutions.PastDryRunIsApproved` | app/services/change_execution_service.py:263-420 | An execution past its dry-run belongs to a plan that met every condition when it was checked. |
| `ChangeExecutions.CleanRepairIsNotStored` | app/services/change_execution_service.py:852-861 | A successful repair is not stored. |
| `ChangeExecutions.RepairsIff` | app/services/change_execution_service.py:863-866 | A read repairs exactly what has projections pending. |
| `ChangeExecutions.ReportKeepsHistoryIff` | app/services/change_execution_service.py:534-544 | One commit of a report keeps the history of all reports iff its copy agrees with the stored record on the latest report and the nineteen before it. |
| `ChangeExecutionRuns.CommitsIff` | app/services/change_execution_service.py:444-520 | In every run a report is committed iff its outcome may follow the status that was read and the one now stored, the plan still holds, and it says what its outcome requires about the approved steps; a refused one changes nothing. |
| `ChangeExecutionRuns.CommitStores` | app/services/change_execution_service.py:476-516 | A committed report stands on top of the reports that were read, owes every projection, and leaves mode and checks alone. |
| `ChangeExecutionRuns.CommittedAreAcceptable` | app/services/change_execution_service.py:489-489 | Every report that a run commits is acceptable. |
| `ChangeExecutionRuns.AcceptableIsCommitted` | app/services/change_execution_service.py:435-520 | In any run an acceptable report by a new call can be committed wherever its outcome may follow. |
| `ChangeExecutionRuns.StoredWasCommitted` | app/services/change_execution_service.py:480-489 | No stored report, nor any in its history, was not committed. |
| `ChangeExecutionRuns.ClosedMeansSucceeded` | app/services/change_execution_service.py:1024-1030 | An execution is closed only by an acceptable success, with one succeeded result for each approved step. |
| `ChangeExecutionRuns.ResumedModeIsStored` | app/services/change_execution_service.py:675-736 | A call that carries on a completed dry-run stores the mode it was asked for. |
| `ChangeExecutionRuns.SyncsAreHarmlessIff` | app/services/change_execution_service.py:840-861 | Over every run within given modes, outcomes and callers projection syncs change no fact iff there is one caller, or a pending recovery cannot be reported failed and no sandbox run can escalate. |
| `ChangeExecutionRuns.LateSyncErasesReports` | app/services/change_execution_service.py:840-850 | A run in which a late sync erases two manual reports. |
| `ChangeExecutionRuns.LateRepairErasesRollback` | app/services/change_execution_service.py:748-771 | A run in which a late repair erases the note of an escalation. |
| `ChangeExecutionRuns.ReportsAreKeptIff` | app/services/change_execution_service.py:435-564 | Over every run within given modes, outcomes and callers the stored manual result is that of all committed reports, in order, iff there is one caller, nobody asks for manual execution, or no outcome may follow another. |
| `ChangeExecutionRuns.StaleReportLoses` | app/services/change_execution_service.py:534-544 | For any two callers and outcomes of which one may follow the other, a run with two committed reports of which only the second is stored. |
| `ChangeExecutionRuns.StoredModeAgreesIff` | app/services/change_execution_service.py:115-130 | Over every run within given modes, outcomes and callers the stored mode agrees with the status iff all ask for the same mode. |
| `ChangeExecutionRuns.StoredModeMayDisagree` | app/services/change_execution_service.py:115-130 | For any two modes, a run in which an execution created for the first one is carried on in the second. |
| `ChangeExecutionStore.ExecutionStore.CreateOnce` | app/services/sqlite_store.py:547-608 | Creates iff neither the scope nor the identifier is taken; there is at most one execution per approved plan. |
| `ChangeExecutionStore.ExecutionStore.SaveIfStatus` | app/services/sqlite_store.py:501-545 | Saves iff the stored status is an expected one. |
| `ChangeExecutionStore.StartAfterApproval` | app/services/change_execution_service.py:83-261 | A call alone leaves the execution at exactly the specified status and touches no other. |
| `ChangeExecutionStore.LoneStartEnds` | app/services/change_execution_service.py:83-261 | In the machine of many calls, a start among any others that take no turn meanwhile is over after nine turns, whatever projections fail, and leaves the execution at that same status and the others as they were. |
| `ChangeExecutionStore.ContinueFromPreCheckRunning` | app/services/change_execution_service.py:263-420 | From the pre-check on. |
| `ChangeExecutionStore.ResumeDryRunCompleted` | app/services/change_execution_service.py:628-736 | From a completed dry-run on, checking again first. |
| `ChangeExecutionStore.RunSandboxExecution` | app/services/change_execution_service.py:741-807 | The sandbox ends validated, or stays escalated. |
| `ChangeExecutionStore.StartIsIdempotent` | app/services/change_execution_service.py:217-231 | Remark: asking again for the same mode changes nothing, however much later. |
| `ChangeExecutionStore.DryRunFirst` | app/services/change_execution_service.py:131-215 | Remark: a dry-run first and the rest later ends where going straight there ends. |
| `ChangeExecutionStore.StableIdTells` | app/services/change_execution_service.py:1058-1064 | Approvals without a colon have distinct execution identifiers for distinct plans. |
| `ChangeExecutionStore.StableIdTellsIff` | app/services/change_execution_service.py:1058-1064 | Among given approvals every pair with a plan has an identifier of its own iff no approval's id is another's followed by a colon and more. |
| `ChangeExecutionStore.StableIdClashes` | app/services/change_execution_service.py:1058-1064 | Remark: two different pairs that share one. |
| `A2AMessages.CollectData` | app/services/a2a_messages.py:253-264 | The loop over the parts merges their data in order. |
| `A2AMessages.LastDataPartWins` | app/services/a2a_messages.py:253-264 | A key is there iff some data part names it, and has the value that the last such part gives it. |
| `A2AMessages.CollectTexts` | app/services/a2a_messages.py:266-276 | The loop over the parts collects the texts of the text parts. |
| `A2AMessages.TextIsJoined` | app/services/a2a_messages.py:266-276 | The text is the texts at exactly the positions of the text parts, in order, joined by newlines. |
| `TextTools.JoinIs` | app/services/a2a_messages.py:276-276 | The separator stands between the texts, and only there. |
| `A2AMessages.PartGives` | app/services/a2a_messages.py:255-275 | Which parts contribute data and text. |
| `A2AMessages.ParsesIff` | app/services/a2a_messages.py:39-116 | Parsing answers an envelope iff the payload comes from a user, has at most a hundred parts and keeps to the limits; each identifier and the text are the first true value among their sources, data and metadata what the last source naming a key gives it. |
| `A2AMessages.ParseScoped` | app/services/a2a_messages.py:39-172 | Parsing a scoped payload gives the original envelope with only the message id prefixed and the server's entries in the metadata, iff the id is still valid. |
| `A2AMessages.ScopesIff` | app/services/a2a_messages.py:153-172 | A payload is scoped iff it parses and its message's metadata is an object or empty. |
| `A2AMessages.MetadataTellsIff` | app/api/a2a.py:91-101 | The metadata read back names the principal iff the metadata inside the data names nobody else; it says admin exactly of an admin iff, for an admin, that metadata does not deny it and, for anybody else, no metadata of the payload claims it. |
| `A2AMessages.OwnerReadBackIff` | app/services/a2a_facade_core.py:792-797 | The owner read back is the principal iff the principal has no colon. |
| `A2AMessages.ScopedIdTells` | app/services/a2a_messages.py:161-162 | Principals without a colon never share a scoped message id. |
| `A2ATasks.TaskStore.Create` | app/services/sqlite_store.py:978-1005 | Creates once. |
| `A2ATasks.TaskStore.Save` | app/services/sqlite_store.py:1007-1055 | Refuses to change whose record it is. |
| `A2ATasks.TaskIdTells` | app/services/a2a_messages.py:144-150 | A task id stands for one kind and one message. |
| `A2ATasks.EveryRunKeeps` | app/services/a2a_facade_core.py:158-330 | In every interleaving of sends, streams and queries, cut off anywhere, only recorded tasks have had their diagnosis started, each once; each record sits under its message's id and belongs to whom the message names. |
| `A2ATasks.LooksUp` | app/services/a2a_facade_core.py:158-180 | A call goes on to create a record iff there is none, and to save one iff it is its own request and is to be refreshed. |
| `A2ATasks.StartsAtMostOnce` | app/services/a2a_facade_core.py:158-330 | A diagnosis starts at most once per task. |
| `A2ATasks.OnlyBeginStarts` | app/services/a2a_facade_core.py:181-208 | Nothing starts a diagnosis but the call that created its record, when it goes on. |
| `A2ATasks.StartedIffCreatorBegan` | app/services/a2a_facade_core.py:181-208 | A diagnosis has been started in a run iff the call that created its record went on to begin it. |
| `A2ATasks.CanStillStartIff` | app/services/a2a_facade_core.py:158-330 | A recorded task that has not been started can still be, by some continuation, iff its creator is still there. |
| `A2ATasks.OrphanRun` | app/services/a2a_facade_core.py:292-309 | A creator that goes away before it begins: however the run continues, retries included, the recorded task is never started. |
| `A2ATasks.IdentityNeverChanges` | app/services/a2a_facade_core.py:691-715 | A record keeps its message, fingerprint and owner for ever. |
| `A2ATasks.OwnerIsPrincipalIff` | app/services/a2a_facade_core.py:670-689 | A scoped record's owner is the principal iff the principal has no colon. |
| `A2ATasks.DifferentRequestIsRefused` | app/services/a2a_facade_core.py:763-768 | Remark: a message id used again with another request saves and starts nothing. |
| `A2ATasks.SavesAreAccepted` | app/services/a2a_facade_core.py:691-715 | Whoever saves in a reachable state is not refused. |

## Left out

- FastAPI routes, SSE formatting, health checks, telemetry, the front end, LangGraph nodes, retrieval and the monitoring adapters other than the RESP codec: no protocol of their own; node outputs are arbitrary here.
- Ideal time: a timeout fires exactly when it is due and computing takes none; a task that is cancelled is taken to end at once, although the MCP client waits for it without a bound (app/agent/mcp_client.py:108-110); floating-point rounding and clock steps are not modelled.
- Exceptions that are not `Exception` inside the wrappers are one outcome, `Fatal`; an interrupt while the blocking wrapper waits for a slot is not modelled. A `TimeoutError` that a blocking dependency raises itself is handled as the code does on Python 3.11 and later, as the wrapper's own timeout.
- `RespCodec`: text stays bytes, so decoding with replacement and non-ASCII white space or digits are not modelled, nor are the read timeouts between frames.
- `PromptJson`: values other than strings are rendered elsewhere and opaque here, so only objects of strings are read back.
- `ContextBudget`, `PromptBuilder`: limits are non-negative and given; the validation of other limits and the fallback for values that JSON cannot render are not modelled.
- `TextTools`: lower case is ASCII lower case.
- `ProgressLog`: how cursors are spelled is not modelled; that new ones are fresh is a hypothesis of its lemmas.
- `ChangePlans`: metadata fields that the source turns into text are texts here, and an absent one is the empty text; size limits of the stored models are not modelled.
- `ChangeExecutions`: that a manual report comes from somebody other than the approver, that its notes and evidence are present, and that the approval itself has not expired are checks the model does not make, so it has more runs than the code; the order of the projections and what they write are not modelled.
- `ChangeExecutionStore.StartAfterApproval`: one call alone, with every projection succeeding; interleavings are those of `ChangeExecutions`.
- `Approvals`: importing old request files, what the projections write, and a service configured without report synchronisation.
- `ApprovalFlow`: how the idempotency key of a request is computed; keys are arbitrary texts in `Approvals`.
- `ResumeProtocol`: which approval a stored snapshot waits for is an arbitrary validation result; what the saves contain besides the status is in `ProgressLog` and `Checkpoints`.
- `Checkpoints`: the incident object that run state and snapshot share is updated in place by the source; here the update is an explicit second result (`Healed`). Outputs are over the fields of the graph's state, which has no incident id beside its incident, and additive fields are lists.
- `RunListing`: the listing changes only through the scan itself, and the paging of the run listing sees one listing.
- `A2AMessages`: the limit on the whole body, and message metadata given as a list of pairs.
- `A2ATasks`: status, replay and runbook requests, and the contents of a task.
- Token authentication, ownership filters and the redaction of texts: short branch logic.
