# FlowForge, modelled and proved

FlowForge runs workflows that are given as graphs of steps. This project models the parts of it that decide whether a
run is right, and proves what they keep:

- **Planning** (`Dag`, `Planner`): Kahn's algorithm in waves, over the same three tables as the program. It is exact:
  a step list is accepted if and only if it is non-empty, has distinct ids, names only existing steps and has no cycle;
  a step's layer is the length of its longest dependency chain.
- **The engine** (`StepRecords`, `Retry`, `Engine`, `EngineRuns`, `EngineTheorems`, `EngineProgress`, `EngineResume`,
  `VersionCounter`, `RunLayers`): the retry loop of one step; the layer loop of one run as a class whose version counter
  the runs of other executions use at the same time; and any number of workers that run the same execution at once, as a
  transition system whose only shared state is the step records with their versioned compare-and-set. A worker may stop
  for ever at any point, and every store write may be applied and still be reported as an error. Every goroutine of the
  transition system follows the retry loop that `Retry.ExecuteStepWithRetry` is proved against.
- **Claims** (`Executions`, `Claims`, `ClaimRecovery`, `ClaimWait`): the two channels through which workers claim executions, recovery of
  stuck ones, cancel and resume; once as a class over the table, once as a transition system of overlapping
  transactions.
- **Rate limiting** (`RateLimit`): the token bucket script, over all call sequences, with key expiry.
- **Sessions** (`Sessions`, `SessionLifetimes`, `SessionOverlap`, `SessionMany`, `SessionLogout`,
  `SessionService`): login, refresh and
  logout over a timed cache. Each cache operation is a step of its own and may fail with or without taking effect.
- **Workflow versions** (`Versions`, `VersionEffects`, `WorkflowService`): create, update, roll back, delete, generate and trigger.
- **Text** (`Template`, `TemplateMeaning`, `StateStore`, `JsonExtract`): parameter templates, the state they read, and finding the JSON
  value in a generated answer.

The classes have the fields and methods of the program's objects. Each method is proved against a specification function
or relation, and the lemmas are about those. What the main methods write, refuse and return is also stated without those
specifications, over rows, events, reports and characters alone. Clocks, fresh ids, answers of actions and failures of the database or the
cache are parameters, so every statement holds for all of them. A database transaction is one step that commits or
changes nothing, except in `Claims`, where the locks of an open transaction are part of the state.

`dafny verify dfyconfig.toml` checks everything.

## What the proofs say about the code

Some requirements fail for the code as it is written. Each has a lemma for the failing case and a theorem with the exact
condition, or a model parameter that selects the code as written or as meant.

- The writes after a step's claim name the version from before the claim
  (`internal/worker/service/engine.go:306`, `322`, `336`, `362`), so they never match. `Config.threaded == false` is
  this code; in it no step but a compensation is ever recorded SUCCESS, FAILED or SUSPENDED
  (`EngineTheorems.AsWrittenNothingCompletes`). For every plan whose actions are registered or loops, and from every
  state of every execution of it, a continuation in which a new run gets through with every record SUCCESS exists if and
  only if versions are threaded (`EngineProgress.PlanCompletesIffThreaded`): then nothing that crashes, failures and
  suspensions leave behind is a dead end (`EngineProgress.NoDeadEnd`). The safety theorems hold for both values.
- All runs of a worker share one engine and its version counter, and each run sets it to its own claim when it starts
  (`internal/worker/service/engine.go:84`). So the version an execution update names is the claim of the last start by
  any run plus the steps of the counter since (`VersionCounter.CounterFromLastStart`). It is above the run's own claim
  for a run that is alone (`VersionCounter.AloneNamesAboveClaim`), but need not be when another run starts with a lower
  claim (`VersionCounter.OtherStartResetsCounter`).
- A write that names the version m above a claim lands exactly when the row has been updated m times since the claim
  (`Claims.StrayLandsIff`). In particular the version after the claim misses while the claim is current and lands after
  another worker has claimed the recovered execution (`Claims.StaleWriteLandsAfterReclaim`). When holders name the
  versions that their own updates produced, none ever writes after being superseded (`Claims.EarlierHolderIsSilenced`).
- A resumed run does not learn again that a condition was false (`EngineTheorems.LaterRunForgetsCondition`). After a run
  through all layers, a run that begins later skips all that the first one skipped if and only if the first found no
  condition false, and so skipped nothing (`EngineResume.LaterRunSkipsIff`). After any run, also an interrupted one, a
  step that it found false and left SUCCESS is never skipped again (`EngineResume.FalseStepNeverSkippedLater`), and what
  depends on it may be executed (`EngineResume.LaterRunExecutesSkipped`).
- Update inserts the new current row before it clears the old mark. With an ordinary unique index no update commits
  (`Versions.ImmediateIndexBlocksUpdates`); with the index checked at commit it commits exactly when the base is
  current, active and newest (`Versions.UpdateCommitsIff`). Hence after a rollback to an older version no update from it
  commits.
- Rollback asks for a target that is current, and so can only name the current version and changes nothing
  (`Versions.RollbackToCurrentIsIdle`); as meant it commits exactly for an active target that is not current
  (`Versions.RollbackCommitsIff`).
- An execution names its workflow by id, and the lookup by id asks for current rows, so an update between trigger and
  claim makes the lookup fail (`Versions.UpdateHidesBase`); the run is then marked FAILED
  (`Executions.ExecutionStore.ExecuteOne`).
- A token is live until it expires exactly if no refresh or logout that names it has blacklisted it
  (`Sessions.LiveIffUnrevoked`), that is, if no refresh that read the entry between the token's store and the next write
  of the entry went on to revoke it, and no logout that names it did (`SessionMany.SurvivesIff`); both for any number of
  overlapping calls. Two overlapping refreshes can leave two live tokens (`SessionOverlap.OverlapLeavesTwoLive`); two that
  succeed do so exactly when each reads the entry before the other has stored its token
  (`SessionOverlap.BothLiveIffOverlap`); without overlap there is at most one (`Sessions.AtMostOneLive`).
- A successful logout does not end the session when a refresh has read its entry before and stores its token after
  (`SessionLogout.LateRefreshRevives`). Of one refresh and one logout that both succeed, some token is live afterwards
  exactly in that case (`SessionLogout.LiveAfterLogoutIff`). With no refresh under way when it starts, a logout that names
  the only live token ends the session for ever (`Sessions.LogoutEndsSession`).
- The window bound of the rate limiter holds for all limits and windows of a call sequence if and only if its clock
  never runs backwards (`RateLimit.BoundIffClockMonotone`); `RateLimit.AllowedIffEveryWindowHasRoom` is exact for every
  clock.
- The backoff of the 35th retry wraps to a negative duration (`Retry.NoOverflowIffFewRetries`).
- Extracting JSON twice differs from extracting it once exactly when the text has no bracketed group at its first bracket
  but its first braced group has one (`JsonExtract.ExtractIsFixedIff`, `JsonExtract.TwiceDiffersFromOnce`).

## Model

| member | source | states |
|---|---|---|
| `Planner.BuildExecutionPlan` | pkg/dag/parser.go:10-73 | Accepts exactly the non-empty lists with distinct ids, existing dependencies and no cycle; the result is a plan by longest chains; each rejection names two steps of one id, else a dependency entry for which there is no step, else there is a cycle |
| `Planner.IndexSteps` | pkg/dag/parser.go:19-26 | The step table, or the first repeated id |
| `Planner.CountDependencies` | pkg/dag/parser.go:28-37 | In-degrees and adjacency lists that count repeated entries separately, or the first unknown dependency |
| `Planner.InitialQueue` | pkg/dag/parser.go:39-45 | The steps of in-degree zero, each once, in any order |
| `Planner.RunWave` | pkg/dag/parser.go:52-62 | One wave lowers the in-degrees by exactly the finished dependencies and queues each step that reaches zero once |
| `Planner.RunWaves` | pkg/dag/parser.go:47-66 | Layer after layer holds what is ready after the ones before, until nothing more is |
| `Planner.VisitedDecides` | pkg/dag/parser.go:68-72 | The count of visited steps equals the length of the list exactly when there is no cycle |
| `Dag.StuckHasCycle` | pkg/dag/parser.go:68-70 | Steps that wait for one another for ever contain a real dependency cycle, which the lemma produces |
| `Dag.FixpointDecidesAcyclic` | pkg/dag/parser.go:48-70 | When no wave adds anything, all steps are done exactly if the graph is acyclic |
| `Dag.WaveIsLongestChain` | pkg/dag/parser.go:48-66 | A step enters in wave k exactly when its longest dependency chain has k edges |
| `Planner.PlanIsUnique` | pkg/dag/parser.go:41-66 | The layers as sets do not depend on map iteration order |
| `Planner.PlanHasEachStepOnce` | pkg/dag/parser.go:52-64 | Each step stands in one layer, once, also with repeated dependency entries |
| `Planner.PlanRespectsDependencies` | pkg/dag/parser.go:56-65 | A dependency stands in an earlier layer |
| `Planner.PlanIsShortest` | pkg/dag/parser.go:39-66 | No valid layering has fewer layers |
| `Planner.PlanIsValidLayers` | pkg/dag/parser.go:47-66 | Over positions alone: every step is planned, no id stands at two places, each dependency stands in an earlier layer, and each step after the first layer depends on one of the layer just before |
| `Planner.ErrorSays` | pkg/dag/parser.go:11-37 | What is wrong with a list that is rejected with each of the four errors |
| `StepRecords.StepStore.Update` | internal/repository/step_execution.go:159-182 | Applies and raises the version by one exactly when the named version is the stored one; apart from the version only the patched column changes; a refused update changes nothing |
| `Retry.ExecuteStepWithRetry` | internal/worker/service/engine.go:188-379 | For every world, its calls are a path of the loop automaton, answered by the world in the attempt that asks. Over the calls alone: each is followed by just the call that its answer demands, the last one decides the verdict, and a refused claim, a missing record and a missing action are last calls that give an error |
| `Retry.CallsInOrder` | internal/worker/service/engine.go:202-378 | At every point of the loop: a claim is followed only if it was confirmed, and by the action; a suspension by the SUSPENDED write; a failure by the retry count, and that by a sleep or the FAILED write; a sleep by the next read |
| `Retry.SleepsWhileRetriesLeft` | internal/worker/service/engine.go:330-358 | The loop sleeps after attempt i for the time of that attempt while retries are left, and writes FAILED only when none is |
| `Retry.AnswersAreTheWorlds` | internal/worker/service/engine.go:203-365 | Each answer in a trace is the one the world gives in the attempt that asks |
| `Retry.TraceIsDetermined` | internal/worker/service/engine.go:202-378 | These two conditions determine the calls, their answers and the verdict |
| `Retry.AtMostAttemptsActs` | internal/worker/service/engine.go:195-202 | The action runs at most max(1, MaxRetries + 1) times |
| `Retry.ActsAreClaimed` | internal/worker/service/engine.go:213-227 | Every action call comes directly after a RUNNING write that the store confirmed |
| `Retry.VerdictIsLastCall` | internal/worker/service/engine.go:209-211 | A nil return happens exactly when the last call saw or stored SUCCESS, a suspension exactly when it stored SUSPENDED; the return after the loop is unreachable |
| `Retry.BackoffExact` | internal/worker/service/engine.go:331 | In 64-bit nanoseconds the backoff is exact up to attempt 33 and negative at 34 |
| `Retry.NoOverflowIffFewRetries` | internal/worker/service/engine.go:330-334 | No backoff of a step wraps if and only if it has at most 34 retries |
| `Retry.TotalBackoff` | internal/worker/service/engine.go:330-351 | A step that fails on n attempts has slept 2^(n-1) - 1 seconds |
| `Engine.SuccessStays` | internal/worker/service/engine.go:209-211 | No single action of any worker changes a SUCCESS record of a step that is not a compensation |
| `Engine.WritesSay` | internal/repository/step_execution.go:159-182 | What each call of a worker leaves in the record: status, version and retry count written out; other records are untouched |
| `Engine.RecordsStayOk` | internal/worker/service/engine.go:213-375 | What a worker knows of a record stays true of it as long as the version it holds is current |
| `EngineRuns.ClearAncestors` | internal/worker/service/engine.go:118-174 | A step that no skip reaches has every transitive dependency recorded SUCCESS |
| `EngineRuns.ClaimIsFirst` | internal/repository/step_execution.go:159-182 | A claim that takes effect is the first of its record version |
| `EngineTheorems.PlanHasConfig` | internal/worker/service/engine.go:96-118 | Every plan gives a configuration the transition system runs, so its theorems speak about all plannable workflows |
| `EngineTheorems.InvAlways` | internal/worker/service/engine.go:83-416 | The invariant holds in every state of every interleaving of workers, stops, suspensions and resumptions |
| `EngineTheorems.DependenciesFirst` | internal/worker/service/engine.go:118-174 | Once the layer loop has set a step to RUNNING, each step it transitively depends on has been recorded SUCCESS, and still is unless it is a compensation |
| `EngineTheorems.SuccessIsFinal` | internal/worker/service/engine.go:203-227 | A SUCCESS record never changes again in any execution |
| `EngineTheorems.ClaimsAreOfNewVersions` | internal/repository/step_execution.go:159-182 | Two effective claims of a step are of different record versions, the later of the newer |
| `EngineTheorems.OneActionPerClaim` | internal/worker/service/engine.go:218-227 | For each version of a record at most one worker wins the RUNNING write and runs the action, once |
| `EngineTheorems.SkipSetIsExact` | internal/worker/service/engine.go:125-132 | A run through all layers has skipped exactly the steps whose condition was false and all that is reachable from them; every step without a skipped dependency is recorded SUCCESS |
| `EngineTheorems.LaterRunForgetsCondition` | internal/worker/service/engine.go:209-211 | A run that begins when a step is already SUCCESS never executes it and never puts it among its false conditions |
| `EngineTheorems.AsWrittenNothingCompletes` | internal/worker/service/engine.go:362-366 | With the versions as written, no step but a compensation is ever recorded SUCCESS, FAILED or SUSPENDED |
| `EngineProgress.NoDeadEnd` | internal/worker/service/engine.go:203-227 | With threaded versions and executable steps: from every state of every execution, whatever crashes, failures and suspensions have left, every new run can get through all layers, skip nothing and leave every record SUCCESS |
| `EngineProgress.PlanCompletesIffThreaded` | internal/worker/service/engine.go:118-186 | For every plan of executable steps and every state of every execution: such a continuation exists if and only if versions are threaded |
| `EngineProgress.ExecuteStep` | internal/worker/service/engine.go:202-375 | In any state, a step that is not SUCCESS, whatever stopped it, and has no skipped dependency can be executed to SUCCESS, touching nothing else |
| `EngineResume.LaterRunSkipsIff` | internal/worker/service/engine.go:209-211 | After a run through all layers, a run that begins later skips, at any time, all that the first one skipped if and only if the first found no condition false |
| `EngineResume.FalseStepNeverSkippedLater` | internal/worker/service/engine.go:209-211 | A step that any run found false and left SUCCESS is never skipped by a run that begins later; neither run needs to get through |
| `EngineResume.SkipRoot` | internal/worker/service/engine.go:125-132 | In every run, finished or not, a skipped step is, or depends on, a step whose condition that run found false |
| `EngineResume.SkipsContainedIff` | internal/worker/service/engine.go:125-132 | Of any two runs through all layers, also concurrent ones, one skips all that the other skipped if and only if it skips each step whose condition the other found false |
| `EngineResume.LaterRunExecutesSkipped` | internal/worker/service/engine.go:209-211 | For every workflow of two dependent steps, an execution in which a run skips the second and a later run executes it |
| `EngineResume.SuchWorkflowsExist` | internal/worker/service/engine.go:209-211 | There are such workflows |
| `VersionCounter.CounterFromLastStart` | internal/worker/service/engine.go:78-84 | The shared counter is the claim of the last start by any run plus the operations since |
| `VersionCounter.NamesAboveClaimIff` | internal/worker/service/engine.go:78-84 | Corollary: when the named version is above the run's claim, and when it is exactly the claim, whatever other runs do |
| `VersionCounter.AloneNamesAboveClaim` | internal/worker/service/engine.go:78-84 | With no other start in between it is always above |
| `VersionCounter.OtherStartResetsCounter` | internal/worker/service/engine.go:84 | A run that another follows with a lower claim names a version below its claim, or its claim |
| `EngineTheorems.GoroutinesFollowLoop` | internal/worker/service/engine.go:138-143 | In every interleaving, the calls a run makes for a step form a path of the retry loop that ends where the goroutine stands |
| `EngineTheorems.GoroutineCallsInOrder` | internal/worker/service/engine.go:218-227 | In every interleaving, a goroutine whose claim was refused makes no other call, and its calls come in the order of the loop |
| `EngineTheorems.RunActsAtMostAttempts` | internal/worker/service/engine.go:195-202 | No run executes a step's action more often than the step has attempts, whatever the other workers do |
| `RunLayers.Engine.RunLayer` | internal/worker/service/engine.go:118-146 | For every order of the goroutines: the same kinds of error, and exactly the steps with a skipped dependency or a false condition join the skip set |
| `RunLayers.Engine.HandleErrors` | internal/worker/service/engine.go:148-173 | A failure among a layer's errors ends the run as failed; otherwise a suspension ends it as suspended |
| `RunLayers.Engine.RunExecution` | internal/worker/service/engine.go:83-186 | Refuses exactly the lists that cannot be planned; otherwise, over steps and reports alone: a step of the layers run is skipped exactly for a false condition or a skipped dependency, all others before the last layer returned nil, and the run fails, suspends or completes as the last layer says; with other runs of the engine acting at any time, its last update names the last start's claim plus the counter's steps since |
| `RunLayers.EndingIsUnique` | internal/worker/service/engine.go:118-174 | Where and how a run stops is decided by what its steps report alone |
| `RunLayers.SkipSetIsClosure` | internal/worker/service/engine.go:125-132 | After all layers a step is skipped exactly when its condition was false or one of its dependencies is skipped |
| `RunLayers.EndingSays` | internal/worker/service/engine.go:118-174 | For a run that stops anywhere: which steps were skipped, which returned nil, and which error stopped it |
| `RunLayers.CompletedSays` | internal/worker/service/engine.go:125-132 | In a completed run each step is skipped exactly for its condition or a skipped dependency, and every other one returned nil |
| `Executions.ExecutionStore.Update` | internal/repository/execution.go:158-182 | Applies exactly when the named version is the stored one, and then sets the status, the next version and the time of the update; no other row changes |
| `Executions.ExecutionStore.AcquireForWorker` | internal/repository/execution.go:184-207 | At most the limit of unlocked PENDING rows, none of them younger than one left out, and a row is left out only by a full batch |
| `Executions.ExecutionStore.RecoverStuckJobs` | internal/repository/execution.go:233-250 | Exactly the unlocked RUNNING rows not updated for 900 seconds become PENDING as of now; versions stay |
| `Executions.ExecutionStore.Poll` | internal/worker/handler/job_poller.go:159-209 | Claims exactly the acquired batch of at most five: each row is RUNNING under its next version as of now, and is handed out under that version; no other row changes |
| `Executions.ExecutionStore.ProcessExecutionByID` | internal/worker/handler/job_poller.go:112-141 | Hands the execution out exactly when it was PENDING and unlocked, RUNNING under its next version as of now; no other row changes |
| `Executions.ExecutionStore.ExecuteOne` | internal/worker/handler/job_poller.go:143-157 | A run whose workflow is not found is marked FAILED as of now if the claimed version is still stored; nothing else changes |
| `Executions.ExecutionStore.Cancel` | internal/services/execution.go:217-237 | With any writers between its read and its write: succeeds exactly for a RUNNING execution whose version is still the one read; otherwise it changes nothing and says which guard failed |
| `Executions.ClaimsOutliveRecovery` | internal/repository/execution.go:233-250 | A recovery within 900 seconds of a claim leaves the claimed execution RUNNING |
| `Executions.BoundedWait` | internal/repository/execution.go:184-207 | An execution with k PENDING rows no younger than it is claimed by the (k/5 + 1)-th poll at the latest, if nothing joins them after a poll has claimed its batch |
| `ClaimWait.BoundedWaitOfRun` | internal/worker/handler/job_poller.go:159-190 | The same in every run of the claim protocol, with any other transactions open: of the committed polls that could take the execution, the (k/5 + 1)-th at the latest takes it, if no row joins those ahead |
| `ClaimWait.CommitShortensQueue` | internal/worker/handler/job_poller.go:167-190 | A poll that overtakes the execution takes a full batch out of the queue ahead of it |
| `Claims.InvStays` | internal/worker/handler/job_poller.go:112-209 | Every action keeps: a locked row is as its transaction read it, no row is locked twice, and no claim is ahead of its row |
| `Claims.MarkNeverConflicts` | internal/worker/handler/job_poller.go:126-132 | The compare-and-set inside a claim transaction always matches |
| `Claims.LockedRowStays` | internal/repository/execution.go:184-231 | No other action changes a row that a claim transaction holds |
| `Claims.PassageIsCommit` | internal/worker/handler/job_poller.go:187-190 | Only the commit of a claim takes an execution from PENDING to RUNNING |
| `Claims.EachPassageHandedOnce` | internal/worker/handler/job_poller.go:135-140 | Each passage from PENDING to RUNNING is handed to one worker under the version the row then has, unless the worker does not learn that it committed; nothing else is handed out |
| `Claims.HandedVersionsIncrease` | internal/worker/handler/job_poller.go:178-185 | The versions under which one execution is handed out strictly increase, across both channels and all recoveries |
| `Claims.OneUpdatePerVersion` | internal/repository/execution.go:158-182 | Each version of an execution admits at most one successful update |
| `Claims.VersionsCountUpdates` | internal/repository/execution.go:158-182 | The version of a row grows by exactly the number of its successful updates |
| `Claims.FencedForever` | internal/repository/execution.go:158-182 | A holder whose version the row has passed stays behind it for ever |
| `Claims.EarlierHolderIsSilenced` | internal/services/execution.go:230-234 | After a newer claim or a cancel commits, no write of an earlier holder changes the row |
| `Claims.StrayLandsIff` | internal/worker/service/engine.go:176-180 | A write that names the version m above a claim changes the row if and only if the row was updated exactly m times since the claim was handed out |
| `Claims.EngineWriteLandsIff` | internal/worker/service/engine.go:547-553 | Corollary of `StrayLandsIff` and `CounterFromLastStart`: when a write lands that names the version of the shared counter |
| `Claims.ClaimOne` | internal/worker/handler/job_poller.go:113-140 | An undisturbed claim of one execution goes through and has exactly the effect of `Claimed` |
| `Claims.StaleWriteLandsAfterReclaim` | internal/worker/service/engine.go:176-180 | The version the engine names misses while its claim is current and lands after a recovery and a new claim |
| `ClaimRecovery.ClaimSurvivesRecovery` | internal/repository/execution.go:233-250 | In every run of the claim protocol: an execution marked at some time and committed is RUNNING as of that time until someone updates it, whatever recoveries run within 900 seconds of the mark |
| `ClaimRecovery.ClaimedRow` | internal/worker/handler/job_poller.go:172-190 | The commit of a claim leaves the row RUNNING as of the time of its mark, however the run went on in between |
| `ClaimRecovery.CurrentHolderWrites` | internal/repository/execution.go:158-182 | With threaded versions the first write of a worker whose claim nobody has updated since takes effect |
| `ClaimRecovery.HolderWriteSays` | internal/repository/execution.go:158-182 | The row after a holder's write: changed exactly when the version it names is the stored one |
| `ClaimRecovery.VisitWriteSays` | internal/services/execution.go:217-237 | The same for the write of a cancel or a resume |
| `ClaimRecovery.RecoverSays` | internal/repository/execution.go:233-250 | The row after a recovery |
| `RateLimit.RateLimiter.Allow` | pkg/redis/redis.go:151-181 | One evaluation of the script: a missing or dropped bucket is full, a clock that does not advance earns nothing, otherwise `rate` a second up to the limit; an allowed call takes one token; the bucket then lives for 60 seconds; other keys untouched |
| `RateLimit.RateLimiter.Serve` | pkg/redis/redis.go:183-193 | Over a whole trace on any keys, each decision is the one that the calls on its own key determine |
| `RateLimit.AllowedIffEveryWindowHasRoom` | pkg/redis/redis.go:161-174 | For every clock: a call is allowed if and only if every window that ends at it keeps within capacity plus earnings |
| `RateLimit.BackwardClockEarnsNothing` | pkg/redis/redis.go:165 | A call whose clock is not ahead of the one before finds what that one left |
| `RateLimit.WindowBound` | pkg/redis/redis.go:161-174 | With a monotone clock a window of T seconds allows at most capacity + rate * T calls |
| `RateLimit.WhollyAllowedIffWindowsFit` | pkg/redis/redis.go:161-174 | A sequence on a fresh bucket is wholly allowed if and only if every one of its windows obeys that bound |
| `RateLimit.BoundIffClockMonotone` | pkg/redis/redis.go:165-167 | The bound holds for all limits and windows of a sequence if and only if its clock never runs backwards |
| `RateLimit.BackwardClockExceedsBound` | pkg/redis/redis.go:165 | A clock that steps back earns a second twice and exceeds the bound |
| `RateLimit.DropsInvisibleIffRefilled` | pkg/redis/redis.go:176-177 | Dropping idle buckets changes no decision on any sequence if and only if 60 * rate >= capacity |
| `RateLimit.StoredBucketWindowBound` | pkg/redis/redis.go:161-177 | The window bound for the bucket as it is stored, drops included |
| `RateLimit.RouterLimitsRefill` | internal/handler/router.go:35 | The limits that the router installs are of that kind |
| `Sessions.InvStays` | internal/services/user.go:95-207 | Every step keeps: a blacklist entry outlives the token it names, and entries and calls name tokens of their own session |
| `Sessions.ExpirySays` | pkg/jwt/token.go:26-30 | A token expires at a whole second, less than one second short of its access time |
| `SessionLifetimes.UnrevokedLastsAccessTime` | pkg/jwt/token.go:26-30 | In every run: a returned token that nobody revokes is live for its access time since it was minted, less at most one second, and never after |
| `SessionLifetimes.EntryLastsRefreshTime` | internal/services/user.go:95-107 | In every run: until the entry is written again, the session can be refreshed exactly for the refresh time since the store |
| `Sessions.RevokedIsDead` | pkg/jwt/token.go:26-30 | A token that was ever blacklisted is never live again, although both its expiry and the entry's run out |
| `Sessions.LiveIffUnrevoked` | internal/services/user.go:114-207 | For any number of overlapping calls: an unexpired returned token is live if and only if no Refresh or Logout that names it has blacklisted it |
| `Sessions.SessionStaysOk` | internal/services/user.go:138-207 | Every step, failed ones and crashes included, keeps what its session may have live at each point of a call |
| `Sessions.AtMostOneLive` | internal/services/user.go:138-207 | In every run in which the calls on a session do not overlap, at most one of its returned tokens is live |
| `Sessions.LogoutEndsSession` | internal/services/user.go:114-136 | A Logout whose writes take effect, with no Refresh of the session under way when it starts, and that names the only live token: no token of the session is ever live again |
| `SessionLogout.LiveAfterLogoutIff` | internal/services/user.go:114-207 | Of one Refresh and one Logout that both succeed, in any interleaving: some token of the session is live afterwards if and only if the Refresh read before the Logout deleted and stored after |
| `SessionLogout.LateRefreshRevives` | internal/services/user.go:138-207 | That schedule, from every state with a current token: after a wholly successful Logout the session has a live token and its entry again |
| `SessionOverlap.ReadsIffLater` | internal/services/user.go:140-156 | A second Refresh reads the token of the first exactly when it starts after the first has stored it |
| `SessionOverlap.FirstLivesIffUnread` | internal/services/user.go:161-201 | A Refresh's token survives until it expires exactly when the other Refresh read the entry before |
| `SessionOverlap.BothLiveIffOverlap` | internal/services/user.go:138-207 | Two successful Refreshes leave two live tokens exactly when each read before the other stored |
| `SessionOverlap.OverlapLeavesTwoLive` | internal/services/user.go:138-207 | From every state with a current token, a schedule of two Refreshes that leaves two live tokens |
| `SessionMany.SurvivesIff` | internal/services/user.go:114-207 | However many calls overlap, whether they end or not: a returned token is live before it expires if and only if no Refresh that read the entry between its store and the entry's next write has revoked it, and no Logout that names it has |
| `SessionService.UserService.Login` | internal/services/user.go:60-112 | Follows the steps of the session model, with any waits between them; returns tokens exactly when the password fits and the entry is stored; then the entry, the expiry and the blacklist are as written out, and the token is live if the access time exceeds the wait by a second |
| `SessionService.UserService.Refresh` | internal/services/user.go:138-207 | Follows the steps of the session model for every failure and all waits between them; on success the old token is blacklisted for the access time, the entry names the new one, and only that is live |
| `SessionService.UserService.Logout` | internal/services/user.go:114-136 | Follows the steps of the session model, with any wait between them; on success the entry is gone and the token blacklisted for the access time, and none is live if it was the current one |
| `Versions.DefinitionsStay` | internal/repository/workflow.go:224-272 | No operation removes a row or changes the definition under an id |
| `Versions.OkStays` | internal/services/workflow.go:226-328 | Every committed Create, Update, Rollback or Delete keeps versions without gaps, exactly one current row per workflow, and only plannable definitions |
| `Versions.VersionsAreOneToN` | migrations/20260409091730_table_list.sql:38 | The stored versions of a workflow are exactly 1..n, one row each |
| `Versions.UpdateCommitsIff` | internal/services/workflow.go:226-282 | With the index checked at commit, an update commits exactly when its definition can be planned and its base is current, active and newest |
| `Versions.ImmediateIndexBlocksUpdates` | migrations/20260409091730_table_list.sql:40-42 | With the index checked at each statement no update commits |
| `Versions.RollbackToCurrentIsIdle` | internal/services/workflow.go:298-302 | As written, a rollback commits exactly for target = base = current version and changes nothing |
| `Versions.RollbackCommitsIff` | internal/services/workflow.go:284-328 | As meant, it commits exactly from the current version to an active one that is not current |
| `Versions.RollbackExchanges` | internal/services/workflow.go:304-318 | The opposite rollback then commits and restores the table |
| `Versions.UpdateHidesBase` | internal/repository/workflow.go:82-84 | After an update, a lookup of the old row by id alone finds nothing |
| `Versions.OkAlways` | internal/services/workflow.go:66-328 | The invariant holds after every history of operations, failed ones included |
| `Versions.DefinitionsAreForever` | internal/repository/workflow.go:224-272 | In every history a stored definition never changes |
| `Versions.OneUpdatePerBase` | internal/services/workflow.go:246-261 | Of the updates from one base version of a workflow at most one ever commits |
| `VersionEffects.CreateSays` | internal/services/workflow.go:66-106 | A committed create adds one active current row of version 1 to a workflow that had none, and changes no other |
| `VersionEffects.UpdateSays` | internal/services/workflow.go:246-282 | A committed update adds the next version, active and current, and clears the mark of its active, current base alone |
| `VersionEffects.RollbackSays` | internal/services/workflow.go:284-328 | A rollback as meant exchanges the marks of two active versions and changes nothing else |
| `VersionEffects.DeleteSays` | internal/repository/workflow.go:250-272 | A committed delete clears the active flag of every row of the workflow and changes nothing else |
| `VersionEffects.NothingCommitsAfterDelete` | internal/repository/workflow.go:106-131 | In every history: after a committed delete no create, update or rollback of that workflow ever commits |
| `VersionEffects.StoredCanBeUpdated` | internal/services/workflow.go:226-282 | With the index checked at commit, what a create or an update has stored can be updated next |
| `WorkflowService.Transaction.Insert` | internal/repository/workflow.go:46-73 | Refused exactly for a taken version or, with the index checked at once, a second current row |
| `WorkflowService.Transaction.GetForUpdate` | internal/repository/workflow.go:106-131 | The active row with the given version and mark, or none if there is none |
| `WorkflowService.Workflows.Create` | internal/services/workflow.go:66-106 | Commits exactly when it can, and then adds one active current row of version 1; a failure changes nothing; a bad definition is reported with its plan error |
| `WorkflowService.Workflows.Update` | internal/services/workflow.go:226-282 | Commits exactly when it can, and then adds the next version and clears the mark of its base alone; a failure changes nothing |
| `WorkflowService.Workflows.Rollback` | internal/services/workflow.go:284-328 | Commits exactly when it can, and then, as meant, moves the mark from the base to the target alone; a failure changes nothing |
| `WorkflowService.Workflows.Delete` | internal/repository/workflow.go:250-272 | Succeeds exactly for an existing workflow when the database does not fail; then every row of it is inactive and otherwise as it was, and all others are unchanged |
| `WorkflowService.Workflows.ValidateDag` | internal/services/workflow.go:390-421 | Accepts exactly the plannable lists whose ids and actions are not empty |
| `WorkflowService.Workflows.CreateFromText` | internal/services/workflow.go:330-388 | Stores the first of three answers that can be planned and whose steps have ids and actions, whenever the table allows it, and that answer is what is stored; otherwise it fails without change |
| `WorkflowService.Workflows.Get` | internal/repository/workflow.go:75-104 | Finds current rows only, active or not; what it finds has a plan |
| `WorkflowService.Workflows.LoadAndPlan` | internal/worker/service/engine.go:96-101 | A workflow that is loaded from the store always has a plan: the branch for a plan error is never taken |
| `WorkflowService.Workflows.Trigger` | internal/services/workflow.go:433-507 | Succeeds exactly for a current workflow of the tenant when neither a database call nor the queue fails, and names the failure otherwise; the execution appears with the tenant and version of its workflow and one record for each step, in order, or not at all; it stays when only the queue fails |
| `WorkflowService.OneRecordPerStep` | internal/services/workflow.go:478-494 | Those records name each step definition exactly once |
| `WorkflowService.ExecutionAdded` | internal/services/workflow.go:464-498 | A new execution leaves the records of all others as they were |
| `Template.NoHoleIsKept` | internal/worker/service/state.go:11 | Text without placeholders is unchanged |
| `Template.ExpandAroundHole` | internal/worker/service/state.go:41-60 | For all a, b and paths p, resolving a + {{p}} + b gives what a and b give by themselves around what p stands for; inserted text is not scanned again |
| `Template.FirstHole` | internal/worker/service/state.go:11 | Every text has no placeholder or splits at its first one |
| `Template.LawsDetermineExpand` | internal/worker/service/state.go:41-60 | Any function that keeps plain text and replaces placeholders apart is the expansion |
| `Template.OnlyReferencedMatter` | internal/worker/service/state.go:46-48 | The result depends only on the entries of the steps that the text refers to |
| `Template.UnknownIsKept` | internal/worker/service/state.go:50-61 | Placeholders of unknown steps stay as they are |
| `TemplateMeaning.TextIsInserted` | internal/worker/service/state.go:51-54 | For parts joined by dots: when following the fields from a known step ends in a text, the placeholder is that text, without quotes |
| `TemplateMeaning.OtherValueIsMarshalled` | internal/worker/service/state.go:56-57 | When it ends in any other value, the placeholder is its JSON |
| `TemplateMeaning.NowhereIsNull` | internal/worker/service/state.go:81-92 | When a field is missing or the walk enters something that is not an object, it is the JSON of null |
| `TemplateMeaning.EveryWalkEnds` | internal/worker/service/state.go:81-92 | Every walk either ends in a value or breaks off so, and not both |
| `TemplateMeaning.UnknownStepStays` | internal/worker/service/state.go:46-61 | The placeholder of an unknown step stays |
| `TemplateMeaning.OtherBracesStay` | internal/worker/service/state.go:11 | Braces around anything but letters, digits, underscores and dots are ordinary text |
| `TemplateMeaning.EveryPathJoins` | internal/worker/service/state.go:44 | Every path is parts without dots, joined by dots |
| `StateStore.NavigatePath` | internal/worker/service/state.go:81-92 | Follows a path through objects; a missing field or a step into anything else gives null |
| `StateStore.State.ResolveText` | internal/worker/service/state.go:41-62 | One pass from left to right computes the expansion |
| `StateStore.State.Resolve` | internal/worker/service/state.go:36-68 | Keeps the keys, returns values that are not text as they are, and expands every text |
| `StateStore.State.Copy` | internal/worker/service/state.go:70-79 | A fresh object with the same entries |
| `StateStore.RunLayer` | internal/worker/service/engine.go:138 | Whatever the order of a layer's steps, each is called with the parameters that the state before the layer gives, and that state is unchanged |
| `StateStore.Rehydrate` | internal/worker/service/engine.go:103-116 | The state a run starts with, from the stored records |
| `StateStore.RehydratedExactly` | internal/worker/service/engine.go:106-115 | It holds exactly the outputs of the records that are SUCCESS and have one, whatever the order of the records |
| `StateStore.RunAllLayers` | internal/worker/service/engine.go:103-146 | In a whole run every step is called with parameters from the outputs stored before the run; no output of the run itself is seen |
| `JsonExtract.ExtractJSON` | internal/services/ai_service.go:151-209 | The group at the first '[' if it closes, else that at the first '{', else the whole |
| `JsonExtract.FindGroup` | internal/services/ai_service.go:156-179 | Finds the first opener's group exactly when it has one |
| `JsonExtract.GroupByCounts` | internal/services/ai_service.go:156-179 | A group, by counting: it starts with the opener, openers outnumber closers in every proper prefix, and both occur equally often in the whole |
| `JsonExtract.ExtractIsUnique` | internal/services/ai_service.go:151-209 | That description determines the result |
| `JsonExtract.ExtractIsContiguous` | internal/services/ai_service.go:176-178 | Every result is a contiguous part of the text |
| `JsonExtract.RoundTrip` | internal/services/ai_service.go:156-178 | A bracketed group is recovered from any text around it, provided no bracket opens before it |
| `JsonExtract.RoundTripIff` | internal/services/ai_service.go:151-209 | For a text that starts with '[', it is recovered exactly if it is a group, or nothing surrounds it and it has no group |
| `JsonExtract.BraceRoundTrip` | internal/services/ai_service.go:180-206 | The same for a braced group when the first bracket, if any, never closes |
| `JsonExtract.BracketExtractIsFixed` | internal/services/ai_service.go:156-178 | In the bracket case a second application changes nothing |
| `JsonExtract.ExtractIsFixedIff` | internal/services/ai_service.go:151-209 | A second application changes the result exactly if the text has no bracketed group at its first bracket and its first braced group has one |
| `JsonExtract.NothingHiddenBehindBrace` | internal/services/ai_service.go:180-206 | That cannot be if no bracket opens before the first brace |
| `JsonExtract.TwiceDiffersFromOnce` | internal/services/ai_service.go:156-178 | A text on which the second application differs |

## Left out

- LOOP steps: a LOOP is one action with any outcome, because its iteration errors are lost (`internal/worker/service/engine.go:262`).
- Compensation: which steps it runs and in which order is not modelled; it may write any status to any compensation step at any time.
- Action bodies, step timeouts and context cancellation: an action returns a result, suspends or fails, as an oracle decides.
- Outputs of steps in the engine's transition system: what steps see of one another's outputs is modelled by `StateStore.RunAllLayers` alone.
- The columns and checks of two tables in `migrations/20260409091730_table_list.sql:46-71`: there executions has no `updated_at`, step_executions has no `version` and no `output`, and neither admits CANCELLED, SUSPENDED or COMPENSATING. The model follows the Go row types and the statements of the repositories, which use all of these.
- SQL text, row-level locking inside PostgreSQL and isolation levels: a statement is one atomic step, and a row lock is held from the read to the end of its transaction.
- JSON, JWT signing, password hashing and UUIDs: definitions arrive decoded, marshalling is a function parameter, and ids are fresh.
- The two authentication checks in front of the session service, and the rest of the HTTP layer: a token is live when it was returned, has not expired and its blacklist key is absent.
- Overlapping calls in `SessionService.UserService`: its methods run one after another; calls that overlap are the subject of `Sessions`, `SessionOverlap` and `SessionLogout`.
- Lost increments of the engine's version counter: its unsynchronised increment is one atomic step.
- Failures of plain reads in `WorkflowService.Workflows`: they return an error and change nothing, like a lookup that finds no row.
- Texts are sequences of characters, so byte offsets into multi-byte characters and invalid UTF-8 are not modelled.
- `updated_at`, `completed_at`, descriptions, error texts, logs and broadcasts, except where recovery reads `updated_at`.
- Row-level security, pagination, filters, user and tenant management, cron, execution retry, failure analysis and the event stream.
