# Verified models of the multi-agent company backend

This project models the parts of the repository where order, interleaving or recursion makes the
code hard to judge by reading it, and proves what they guarantee:

- **Leader election** for the background loops (`LeaderElection`, `LeaderProperties`): instances,
  tasks, pooled connections, sessions and reentrant advisory locks as a step machine.
- **The dependency auto-dispatcher** (`DependencyDispatch`, `DispatchProgress`): any number of
  dispatchers interleaved with every other writer, at the grain of one database access; and one
  whole pass as a method, with the number of passes a task graph needs.
- **Automatic prompt rollback** (`PromptBenchmark`, `PromptObjectives`, `PromptRollback`): the score and the
  verdict, what they count and on which runs, which version comes back, and the cooldown over whole runs.
- **The agent tool loop** in its three versions (`AgentLoop`, `AgentProperties`): the transcript
  protocol, policy, accounting, and exactly when the versions agree.
- **Demo data** (`DemoData`, `DemoProperties`, `DemoSeeding`, `DemoDatabase`, `DemoFolders`,
  `DemoOwnership`): removal and seeding as transformations of a relational database with cascades.
- **Closure analyses** (`PythonCalls`, `EventLoopAudit`, `SupplyChain`): worklists and
  run-until-nothing-changes loops against declarative least fixed points and reachability.
- **Task submission** (`TaskSubmission`, `SubmissionAnswers`, `SubmissionTexts`): one key per
  submission, when an attempt is answered, and which text a reported task has.
- **Route resolution** (`RouteResolution`) and the **frame batcher** (`FrameBatch`).

Loops and objects that change things step by step are methods and classes proved against
specification functions; the properties are lemmas about those functions and about runs of the
step machines. `Basics` holds facts about finite sets. `dafny verify dfyconfig.toml` checks all of it.

## Where the code differs from what is written about it

- Leader election promises that one instance runs a loop. The body never touches the connection
  that holds the lock, so when the database ends that session a second instance becomes leader while
  the first still runs: `LostSessionGivesTwoLeaders` shows it for every loop, `BodiesExclude` proves
  exclusion for every run in which no leader loses its session.
- Standby instances are said to retry until they win. An error of the lock statement is not caught, so
  a task that gets a dead pooled connection ends for good (`StandbyKeepsRetryingExactly`,
  `DeadConnectionIsReachable`, `FinishedForGood`); so does one whose checkout times out (`EndedForGood`). A failed unlock is called harmless; on a session that
  stays alive it keeps every other instance from the loop (`FailedUnlockBlocks`).
- The cooldown is described as a guard against oscillation. It spaces rollbacks out, but they
  alternate between the two newest versions and never reach an older one (`RollbacksAlternate`). Two
  overlapping monitors break it, and so does a crash or an error between the rollback and the storing of
  its time; one monitor without that does not (`CooldownBreakableExactly`, `CrashWithinCooldown`).
- The deployed prompt is said to be judged only on runs made with it. The median latency and the tool
  accuracy in its score come from the role's last 20 runs whatever they are
  (`VerdictIsOnNewRunsExactly`). With the shipped settings, one older run with a failed tool call rolls
  back a prompt whose own runs are perfect, as soon as it has five of them (`OlderRunRollsBack`).
- The Anthropic version leaves the tool uses of an end-of-turn response unanswered
  (`AnsweredExactly`), and the Gemini version, described as mirroring Groq, differs from it on every
  response without tool uses.
- The form promises one task per submission. A second one is created exactly when a request is taken
  under a key, the server forgets the key while that request is at work or its task exists, another one is
  taken, and both create (`TwoTasksExactly`): the key expired (`ForgottenKeyCreatesAgain`), even while its
  request was still at work (`ExpiryAtWorkCreatesAgain`), or the create request failed after its insert was
  committed, since the error path releases the key (`LateFailureCreatesAgain`). A request whose row expired
  also writes its response into the row of the next one, so that a success can report a text its task does
  not have (`OtherTextIsReported`). Text edited after a lost response makes every retry fail until it is
  put back (`EditedAfterLossIsStuck`); after a request that died on the server every retry fails, whatever
  the text (`AbandonedKeyIsStuck`); text edited while images wait for upload is dropped silently
  (`EditWhileWaitingIsDropped`).
- The package list is said to hold everything that requirements.txt pulls in. Of two requirements for
  one package only the extras of the one popped first count (`ExtrasOfEarlierLineAreLost`).

## Model

| member | source | states |
|---|---|---|
| LeaderElection.StepKeepsLocksExclusive | backend/app/main.py:1525-1531 | no step gives one lock key to two sessions |
| LeaderElection.StepKeepsOwners | backend/app/main.py:1532-1548 | a task in or just after its body has its key for as long as its session lives, through every step of every other task |
| LeaderElection.StepLosesNoConnection | backend/app/main.py:1524-1549 | every connection that is not idle is held by some task: none leaks on any path out of the `async with` |
| LeaderElection.StepKeepsPoolsBounded | backend/app/main.py:1491-1493 | no instance ever has more connections than its pool size |
| LeaderProperties.StepKeepsInv | backend/app/main.py:1523-1549 | the whole invariant holds after every step: checkout, try, win, lose, unlock, failed unlock, give back, cancel, session loss, crash |
| LeaderProperties.LocksAreExclusive | backend/app/main.py:1501-1505 | in every reachable state a lock key has at most one session, and that session is live |
| LeaderProperties.OverlapNeedsLostSession | backend/app/main.py:1532-1538 | if two tasks are inside a body under one key, one of them has lost its session |
| LeaderProperties.BodiesExclude | backend/app/main.py:1497-1507 | a run in which no leader loses its session never has two tasks inside a body under one key |
| LeaderProperties.LostSessionGivesTwoLeaders | backend/app/main.py:1536-1538 | for every configuration and loop, a run with one lost session, no crash and no failed unlock that ends with two leaders |
| LeaderProperties.RetryWinsExactly | backend/app/main.py:1526-1532 | in every reachable state, a try on a working connection wins if and only if no task under that key owns it with a live session and no other session has kept it for nobody |
| LeaderProperties.OrphansAreFailedUnlocks | backend/app/main.py:1539-1547 | a session that keeps a key for nobody is live, and an unlock of that key failed on it |
| LeaderProperties.FailedUnlockBlocks | backend/app/main.py:1539-1547 | a run from the start in which a failed unlock keeps a rival with a working connection out, though nobody leads |
| LeaderProperties.LocksCountFailures | backend/app/main.py:1539-1547 | in any run, a live session has a key exactly as often as an unlock of it failed there, and once more while a task owns it |
| LeaderProperties.StaysFree | backend/app/main.py:1525-1532 | a key that no live session owns stays free under any steps of any tasks, until a try for it wins |
| LeaderProperties.TakeoverWithinOneRetry | backend/app/main.py:1504-1507 | whether a leader returns, crashes or loses its session, nobody has its key any more; whatever follows, that stays so until a try wins, and the first try on a working connection does, unless a failed unlock has left the key to another session |
| LeaderProperties.SleepingStandbyTakesOverExactly | backend/app/main.py:1524-1549 | a sleeping standby of a free key wakes, takes a connection and leads, if and only if that connection works and no failed unlock has left the key to another session |
| LeaderProperties.CollidingNamesShareOneLeader | backend/app/main.py:1528-1529 | names with one hash cannot both lead; a name whose key no other owner shares wins |
| LeaderProperties.StandbyKeepsRetryingExactly | backend/app/main.py:1524-1531 | after a try that does not win, the task sleeps and retries if its session was live and is finished if it was not |
| LeaderProperties.DeadConnectionIsReachable | backend/app/main.py:1525-1531 | a run from the start to a task that is about to try on a dead connection |
| LeaderProperties.FinishedForGood | backend/app/main.py:1524-1549 | a finished task never runs again while its instance is up |
| LeaderProperties.EndedForGood | backend/app/main.py:1524-1549 | a waiting task whose checkout times out, a leader whose body ends and whose unlock works or fails, and a task that is cancelled while it waits, tries or sleeps: each is then finished, its connection idle or closed, and it leads in no run that follows, though a connection becomes free, until its instance crashes |
| LeaderProperties.CheckoutNeverWaitsExactly | backend/app/main.py:1473-1493 | no checkout ever waits, in any reachable state, if and only if the pool has a connection per loop |
| LeaderProperties.ShortPoolStarves | backend/app/main.py:1796-1800 | with every connection held by a leader that keeps leading, no other loop of that instance ever runs its body; once its checkout has timed out it never does, whatever the leaders do (`EndedForGood`) |
| LeaderProperties.StarvationIsReachable | backend/app/main.py:1796-1800 | with distinct keys and a pool short of the loops, a run from the start that ends in such a state, with a loop left waiting |
| LeaderProperties.DeployedPoolSuffices | backend/app/main.py:1778-1810 | with the deployed list of loops and its pool no loop ever waits for a connection, whatever the hash |
| DependencyDispatch.StepKeepsOtherPass | backend/app/main.py:1152-1163 | what a dispatcher has read about its candidate stays true while others write |
| DependencyDispatch.DispatchIsTopological | backend/app/main.py:1144-1188 | in any interleaving with writers that set any status, a task is dispatched only after each of its dependencies was completed, and only if it has some |
| DependencyDispatch.DispatchedWasBlocked | backend/app/main.py:1144-1188 | in any run, a task that comes to its compare-and-swap was found blocked with reason "dependency" by a scan of the same dispatcher; it is dispatched if and only if it is pending, rejected or blocked by then, and only its status and reason change |
| DependencyDispatch.CyclesAreNeverDispatched | backend/app/main.py:1157-1163 | a set of tasks that each wait for a member of the set is never dispatched from, unless another writer completes a member |
| DependencyDispatch.PlanningUntilMoved | backend/app/main.py:1165 | a dispatched task stays in planning, outside the scan, until another writer moves it |
| DependencyDispatch.StatusColumns | backend/app/db/repository.py:457-463 | the allowed sources of each new status, which the compare-and-swap gets by inverting the table of transitions |
| DependencyDispatch.OncePerEpisode | backend/app/db/repository.py:459-471 | between two dispatches of one task, by any dispatchers, another writer has moved it |
| DispatchProgress.TaskStore.StillUnmet | backend/app/main.py:1156-1163 | true if and only if some dependency is missing or not completed |
| DispatchProgress.TaskStore.DispatchOne | backend/app/main.py:1153-1194 | moves the task to planning exactly when it has dependencies, all completed, and its status allows it; the job starts unless starting it fails |
| DispatchProgress.TaskStore.RunPass | backend/app/main.py:1143-1194 | the table and the started jobs after a pass; one failing candidate does not disturb the others |
| DispatchProgress.QuietPass | backend/app/main.py:1143-1194 | the interleaved machine, left alone, does exactly that pass |
| DispatchProgress.QuietRound | backend/app/main.py:1136-1194 | from the scan to the end of the pass, left alone: exactly the tasks that are blocked with reason "dependency", have dependencies, and have them all completed, go to planning, and no other row changes |
| DispatchProgress.PassPointwise | backend/app/main.py:1145-1165 | a pass moves exactly the candidates whose dependencies were completed before it, and touches nothing else |
| DispatchProgress.StartsExactly | backend/app/main.py:1153-1194 | a pass starts one job for each candidate that has dependencies, all completed before it, and whose job can be started; no other, and none twice |
| DispatchProgress.DepthMeaning | backend/app/main.py:1157-1161 | all dependencies lie below layer k if and only if the depth is at most k |
| DispatchProgress.LayerByLayer | backend/app/main.py:1143-1188 | after k rounds the candidates of depth below k are completed, the others exactly as they were |
| DispatchProgress.AllDoneWithinN | backend/app/main.py:1143-1188 | n blocked tasks with acyclic dependencies are all dispatched and completed within n passes |
| DispatchProgress.AllDoneExactly | backend/app/main.py:1143-1188 | with nothing in planning at the start, n blocked tasks are all completed by n passes if and only if their unfinished dependencies are among them, without a cycle |
| PromptRollback.MaxWithMeaning | backend/app/fleet/prompt_registry.py:295-303 | the query finds the highest version number of a status, and nothing exactly when there is none |
| PromptRollback.RollbackDeploysExactly | backend/app/fleet/prompt_registry.py:387-401 | whatever was deployed, a rollback works if and only if something was superseded; the newest of that is then the only deployed version, what was deployed is superseded, and nothing else changes |
| PromptRollback.RollbackSwaps | backend/app/fleet/prompt_registry.py:387-401 | with one version deployed, a rollback swaps it with the newest superseded one |
| PromptRollback.SecondRollbackReturnsExactly | backend/app/fleet/prompt_registry.py:387-401 | a second rollback undoes the first if and only if the version rolled back is newer than every other superseded one |
| PromptRollback.RollbacksAlternate | backend/app/main.py:683-699 | any number of rollbacks only alternates between the two newest versions |
| PromptBenchmark.RegressedUnderDeployed | backend/app/main.py:616-652 | the verdict: no deployment time means no regression, otherwise the benchmark score (`CompositeByCounts`) of the runs since then, with latency and tool accuracy of the last 20, against the baseline |
| PromptBenchmark.CollectNew | backend/app/main.py:632-641 | the runs of the window that started at or after the deployment, in order |
| PromptBenchmark.NewRunsMeaning | backend/app/main.py:633-641 | a run is kept if and only if its start can be read and is not before the deployment |
| PromptBenchmark.SortMeaning | backend/app/fleet/metrics.py:318-319 | the latencies are sorted, and as many of each as before |
| PromptBenchmark.MedianMeaning | backend/app/fleet/metrics.py:310-319 | the median is one of the positive latencies, and absent if and only if there are none |
| PromptObjectives.MedianRank | backend/app/fleet/metrics.py:310-319 | by counting the runs themselves: of those with a positive latency no more than half are faster than the median, and more than half are no slower |
| PromptObjectives.LatencyScoreMeaning | backend/app/fleet/benchmark_manager.py:196-205 | 1 exactly up to the target, 0 exactly from twice the target on, and falling evenly in between |
| PromptObjectives.GateSeesTwenty | backend/app/fleet/metrics.py:300-302 | the gate is decided by the last 20 runs of an agent, whatever came before them |
| PromptObjectives.CompositeByCounts | backend/app/fleet/benchmark_manager.py:212-248 | each objective by counts over the runs: completed among retried runs, worked among compile calls, unsatisfied among all runs, the mean verification, and the mean share of worked calls over the recent runs that have calls; with their values when nothing is counted |
| PromptObjectives.RegressionExactly | backend/app/fleet/benchmark_manager.py:51-106 | a verdict is a regression if and only if a positive baseline has an unknown or sufficient number of samples, there are enough runs, and the score is below the tolerated part of it |
| PromptObjectives.BetterRunsScoreNoLower | backend/app/fleet/benchmark_manager.py:207-248 | with no negative weight, runs that are better in any respect (completed after a retry, a call that works, faster, more verified, nothing unsatisfied) never score lower, and never become a regression |
| PromptBenchmark.VerdictIsOnNewRunsExactly | backend/app/fleet/benchmark_manager.py:207-256 | under some settings and baseline the verdict differs from the one on the deployed prompt's runs alone, if and only if it has runs and the role's last 20 differ from its own in median latency or mean tool accuracy |
| PromptBenchmark.NewRunsAloneAgree | backend/app/fleet/benchmark_manager.py:212-213 | the two verdicts agree when all of the last 20 runs are of the deployed prompt |
| PromptBenchmark.OlderRunRegressesExactly | backend/app/fleet/benchmark_manager.py:51-106 | with the shipped weights and threshold, one older run with a failed tool call makes perfect newer runs a regression if and only if there are enough of them for a verdict; alone they never are |
| PromptBenchmark.PoorRunsRegressExactly | backend/app/fleet/benchmark_manager.py:51-106 | runs with failed tool calls are a regression if and only if there are enough of them |
| PromptRollback.OlderRunRollsBack | backend/app/main.py:643-699 | with the shipped settings, for 5 to 19 perfect newer runs, a run of the monitor that rolls their prompt back because of one older run |
| PromptRollback.RollbackMonitor.CheckRole | backend/app/main.py:669-699 | one role in one pass: rolls back and stores the time exactly when gate, deployed version, verdict, cooldown and a superseded version allow it, and otherwise changes nothing |
| PromptRollback.AloneIsCheckRole | backend/app/main.py:669-699 | the separate steps of a monitor that is left alone do exactly what that pass does |
| PromptRollback.RollbackWasJudged | backend/app/main.py:668-695 | every automatic rollback, among any monitors, crashes and other changes: its monitor had a blocked gate and a regression with at least the least number of runs since the deployment, found the cooldown over, and deploys the newest version superseded by then |
| PromptRollback.CooldownHolds | backend/app/main.py:683-699 | a rollback whose check follows the stamp of another one of its role is at least the cooldown after it, whatever other monitors, roles and people do |
| PromptRollback.ClearsExactlyWhenCooledDown | backend/app/main.py:685-692 | a check clears a role if and only if the cooldown since that role's own last stamp is over |
| PromptRollback.CooldownBreakableExactly | backend/app/main.py:683-699 | without a crash, two rollbacks of one role can be closer than the cooldown if and only if two monitors run |
| PromptRollback.CrashBreaksCooldown | backend/app/main.py:694-699 | after a crash before the time is stored, one monitor rolls back again at any later time at which the restored version is a regression |
| PromptRollback.CrashWithinCooldown | backend/app/main.py:694-699 | with the shipped settings, such a run in which the second verdict rests on five runs since the first rollback and falls within the cooldown |
| AgentLoop.ReadContent | backend/app/agents/base.py:188-193 | the text is the last text block or the earlier text, the calls are the tool uses in order |
| AgentLoop.OneTool | backend/app/agents/base.py:203-233 | heartbeat, denial, unknown tool, handler, handler error, submit and observer for one call |
| AgentLoop.RunTools | backend/app/agents/base.py:200-233 | the inner loop composes the calls in order with a running count |
| AgentLoop.RunViaAnthropic | backend/app/agents/base.py:168-237 | the loop ends in the state the specification gives for its response stream |
| AgentLoop.RunViaGroq | backend/app/agents/base.py:265-344 | the same for the version that nudges |
| AgentLoop.RunViaGemini | backend/app/agents/base.py:377-438 | the same for the version without nudges and without an end-of-turn test |
| AgentProperties.WorkAnswers | backend/app/agents/base.py:227-233 | one result per call, in order, under the call's id |
| AgentProperties.TranscriptProtocol | backend/app/agents/base.py:195-237 | every run only appends, assistant and user messages alternate, and each user message answers all tool uses before it once, in order and by id |
| AgentProperties.DeniedReachNoHandler | backend/app/agents/base.py:207-222 | over a whole run no denied call reaches a handler |
| AgentProperties.RefusalsAreDenials | backend/app/policy/engine.py:112-118 | the loop, which tests the reason, takes exactly the engine's refusals for denials: none has an empty reason |
| AgentProperties.PolicyBindsExactly | backend/app/agents/base.py:61-73 | in every run of every version, the calls that reach a handler are exactly those that a consumed response asks for, that the engine allows, and that have a handler |
| AgentProperties.HandledByRules | backend/app/agents/base.py:61-73 | in every run of every version, the calls that reach a handler are exactly the tool uses of the consumed responses that have one, but for a write_file or edit_file whose path a rule gives a reason against, and a bash whose command a rule matches |
| AgentProperties.SubmitsByRules | backend/app/agents/base.py:61-73 | the tools of a response end the run exactly when one of them is named submit_ and no rule is against it |
| AgentProperties.AnswerByRules | backend/app/agents/base.py:207-220 | a call is answered with the path or command rule against it, or as an unknown tool, or with what its handler gave or raised |
| AgentProperties.WholeRun | backend/app/agents/base.py:150-237 | what a run returns: the given messages first, the last text block of all consumed responses or nothing, their tool calls, a heartbeat per five of these, and the sums of their tokens |
| AgentProperties.WorkSubmits | backend/app/agents/base.py:221-222 | the tools end the run if and only if an allowed submit is among them: a denied one never does |
| AgentProperties.HeartbeatsPerFiveCalls | backend/app/agents/base.py:203-205 | heartbeats are the run's tool calls divided by five, rounded down |
| AgentProperties.TokensAreSums | backend/app/agents/base.py:183-186 | token counts are the sums over the consumed responses; only the Anthropic version reports cache tokens |
| AgentProperties.FinalTextIsLastOfAll | backend/app/agents/base.py:189-191 | the final text is the last text block of all consumed responses |
| AgentProperties.TextAfterMeaning | backend/app/agents/base.py:189-191 | what "the last text block" means, or the earlier text if there is none |
| AgentProperties.StopsAtFirstReason | backend/app/agents/base.py:197-237 | Anthropic and Gemini runs end exactly at the first response with a reason to stop |
| AgentProperties.NudgesCountTrailing | backend/app/agents/base.py:286-305 | the nudge counter is the number of trailing tool-less responses and never passes two: a third one ends the run |
| AgentProperties.AnthropicAgreesWithGeminiExactly | backend/app/agents/base.py:197-198 | same transcript, handler calls, text and in/out tokens if and only if the Anthropic run meets no end-of-turn response with tool uses |
| AgentProperties.GroqAgreesWithGeminiExactly | backend/app/agents/base.py:360-365 | the two agree if and only if the Gemini run meets no response without tool uses |
| AgentProperties.AnsweredExactly | backend/app/agents/base.py:197-198 | no tool use is left unanswered if and only if no such cut-off response is met |
| DemoProperties.ClosureIsClosed | backend/app/db/models.py:295 | the rows the database deletes with others by cascade are closed under cascades |
| DemoProperties.ClosureIsLeast | backend/app/db/models.py:1512 | and are the least such set |
| DemoProperties.RemoveMarkedExactly | backend/scripts/seed_demo_data.py:467-485 | the unconditional deletions remove exactly the marked rows and what cascades from them |
| DemoProperties.LabelSurvivesExactly | backend/scripts/seed_demo_data.py:431-450 | a demo goal, epic, project or owned repo survives if and only if a surviving row refers to it |
| DemoProperties.RemovesExactly | backend/scripts/seed_demo_data.py:453-503 | exactly which rows of the database are gone after a removal |
| DemoProperties.RemovedByFields | backend/scripts/seed_demo_data.py:453-503 | by the fields of the rows alone: a row is deleted if and only if a chain of cascading columns leads from it to a demo task, an approval about a demo task, a demo enhancement or a recorded roadmap; or it is a demo project, a goal or epic of one, or a recorded repo, and no column of a remaining row points to it |
| DemoProperties.MarkedRowsGo | backend/scripts/seed_demo_data.py:467-485 | no demo task, no approval whose number is the id of a demo task, no demo enhancement and no recorded roadmap is left |
| DemoProperties.OthersGoByCascade | backend/scripts/seed_demo_data.py:467-485 | any other approval, task, enhancement or roadmap goes only if a cascading column of it points to a deleted row |
| DemoProperties.RecordAfterRemoval | backend/scripts/seed_demo_data.py:486-503 | the record keeps exactly its ids whose repo is left or was never there, and no roadmap |
| DemoProperties.RemovalLeavesNothingDangling | backend/scripts/seed_demo_data.py:453-503 | no foreign key dangles, and a surviving row lost only columns whose target is gone and that may be NULL |
| DemoProperties.RemovalIsIdempotent | backend/scripts/seed_demo_data.py:453-503 | removing again changes neither rows nor the record of owned rows |
| DemoProperties.WithoutMeaning | backend/scripts/seed_demo_data.py:498-500 | the record keeps exactly the owned repos that were not removed |
| DemoDatabase.ReferencedThroughColumns | backend/scripts/seed_demo_data.py:439-449 | looking through the schema's foreign-key columns that point to a table finds every row that needs a row of it |
| DemoDatabase.Database.DeleteUnreferenced | backend/scripts/seed_demo_data.py:431-450 | the conditions built column by column delete exactly the given rows that no row of any table needs, and touch no other row |
| DemoDatabase.Database.RemoveDemo | backend/scripts/seed_demo_data.py:453-503 | the statements, one after the other, make the removal that the theorems are about |
| DemoDatabase.Database.AddMissing | backend/scripts/seed_demo_data.py:539-578 | afterwards the project has every title; nothing is changed, and new rows are exactly goals or epics of the project under titles it did not have |
| DemoDatabase.Database.ReuseOrCreate | backend/scripts/seed_demo_data.py:526-604 | a kept project is reused with its repo and the record stays; only without one is a single new project made, on a new repo that is appended to the record, under ids that were not given out before |
| DemoDatabase.Database.SeedProject | backend/scripts/seed_demo_data.py:522-628 | one spec: nothing is changed; new are at most the project with its recorded repo, and goals and epics under missing titles; all of them are there, every foreign key valid |
| DemoDatabase.Database.Seed | backend/scripts/seed_demo_data.py:506-629 | seeding is a removal followed by every spec in order, rows and record |
| DemoDatabase.Database.SeedThenRemove | backend/scripts/seed_demo_data.py:453-629 | seeding and then removing leaves the rows that a removal alone would have left, whatever the record lists; the record too, when it lists only ids that were given out |
| DemoSeeding.RemovalUndoesSeeding | backend/scripts/seed_demo_data.py:453-629 | a removal after seeding gives exactly the rows of a removal before it; the record too, if and only if it lists no id that seeding gave to a new repo, which is dropped from it; on a database without demo rows, exactly that database |
| DemoSeeding.SeedingKeepsOne | backend/scripts/seed_demo_data.py:523-537 | at most one kept project per name is preserved, and every spec name has one afterwards |
| DemoSeeding.SeedingAddsOnly | backend/scripts/seed_demo_data.py:538-628 | seeding any specs changes no row, and every new row is an unmarked repo, a marked project of a spec on a repo, or an unmarked goal or a marked epic of a spec in the marked project of that spec; no column of them cascades |
| DemoSeeding.ReseedingIsStable | backend/scripts/seed_demo_data.py:506-629 | any sequence of seeding, removing and users' own inserts and deletes keeps every foreign key valid and at most one demo project with a repo per name |
| DemoOwnership.Ledger.Load | backend/scripts/seed_demo_data.py:399-417 | the owned ids read from the setting, whatever text it holds |
| DemoOwnership.Ledger.Save | backend/scripts/seed_demo_data.py:420-428 | what is saved is what is loaded next; the setting is deleted exactly when nothing is owned |
| DemoOwnership.OwnedExactly | backend/scripts/seed_demo_data.py:403-416 | an id is owned if and only if the record lists it as a whole number: damage never adds an owned row |
| DemoFolders.DecimalInjective | backend/scripts/seed_demo_data.py:376 | different suffixes are written differently |
| DemoFolders.NamesDiffer | backend/scripts/seed_demo_data.py:376 | the search never tries a name twice |
| DemoFolders.NamesTried | backend/scripts/seed_demo_data.py:374-387 | the names passed over are as many as the tries, so the search ends within the taken names |
| DemoFolders.Workspace.MakeFolder | backend/scripts/seed_demo_data.py:372-396 | ends with the first usable name, never a registered one or a link; an existing folder is left as it is, and files go only into a folder just created |
| PythonCalls.CollectOwnCalls | What_is/AUDIT_REPORT/evidence/asyncio_run_in_loop.py:40-51 | the stack walk collects the calls of the recursive walk, as a multiset |
| PythonCalls.SameCalls | What_is/AUDIT_REPORT/evidence/blocking_calls_in_async.py:35-45 | right-to-left and left-to-right walks collect each call equally often |
| PythonCalls.OwnCallsExactly | What_is/AUDIT_REPORT/evidence/asyncio_run_in_loop.py:40-51 | a function's own calls are exactly those with a path down its tree through no def, async def or lambda |
| PythonCalls.LeastClosedIsChains | What_is/AUDIT_REPORT/evidence/asyncio_run_in_loop.py:70-77 | a name is in the least closed set if and only if a chain of calls leads from a function of that name to a starting one |
| EventLoopAudit.RunFnByCalls | What_is/AUDIT_REPORT/evidence/asyncio_run_in_loop.py:20-67 | a function starts the first closure if and only if its own body calls `asyncio.run`, and it calls a name if and only if its own body does, plain or as an attribute |
| EventLoopAudit.BlockFnByCalls | What_is/AUDIT_REPORT/evidence/blocking_calls_in_async.py:17-92 | a function starts the second closure if and only if its own body calls a listed function by its dotted name, never a bare one |
| EventLoopAudit.DirectlyWrapping | What_is/AUDIT_REPORT/evidence/asyncio_run_in_loop.py:64-67 | the names of exactly the sync functions with an asyncio.run in their own body, with true places |
| EventLoopAudit.WrapCallers | What_is/AUDIT_REPORT/evidence/asyncio_run_in_loop.py:71-77 | a pass stays below every closed set, and reports no change only when nothing is left to add |
| EventLoopAudit.Wrapping | What_is/AUDIT_REPORT/evidence/asyncio_run_in_loop.py:64-77 | terminates with exactly the least set of names closed under sync callers |
| EventLoopAudit.OrderDoesNotMatter | What_is/AUDIT_REPORT/evidence/asyncio_run_in_loop.py:70-77 | functions found in another order give the same set |
| EventLoopAudit.Hits | What_is/AUDIT_REPORT/evidence/asyncio_run_in_loop.py:79-93 | reports exactly the calls that an async function makes itself to a wrapping, unambiguous name |
| EventLoopAudit.BlockCallers | What_is/AUDIT_REPORT/evidence/blocking_calls_in_async.py:94-102 | a pass keeps every reason true and grounded, and reports no change only when nothing is left to add |
| EventLoopAudit.BlockingSync | What_is/AUDIT_REPORT/evidence/blocking_calls_in_async.py:81-102 | the least closed set again; every entry is true, and following the recorded callees ends at a direct blocking call without a cycle |
| EventLoopAudit.AddVia | What_is/AUDIT_REPORT/evidence/blocking_calls_in_async.py:99-102 | recording a caller with a recorded callee keeps every chain of reasons ending |
| SupplyChain.PythonPackages | scripts/supply_chain.py:79-104 | terminates with the list, or gives up, as the worklist specification says |
| SupplyChain.SelectedMeaning | scripts/supply_chain.py:97-103 | a dependency is followed if and only if it has no marker or the marker holds for one of the extras |
| SupplyChain.PullsExactly | scripts/supply_chain.py:97-103 | the same by the markers: absent, true for any one of the extras, or true for the empty extra when there are none |
| SupplyChain.ListedAreNeeded | scripts/supply_chain.py:80-104 | every listed package is reached from the requirements, with the extras it was expanded with |
| SupplyChain.GivesUpOverMissing | scripts/supply_chain.py:85-90 | the script gives up only over a package that is needed and not installed |
| SupplyChain.ListIsClosed | scripts/supply_chain.py:97-103 | the list has the requirements and all that its packages pull in |
| SupplyChain.FirstPoppedWins | scripts/supply_chain.py:81-84 | a name keeps the extras of the first requirement popped for it |
| SupplyChain.ListIsExact | scripts/supply_chain.py:79-104 | the list is exactly the reachable packages when requirements for one package select the same dependencies |
| SupplyChain.ExtraFreeMarkersAgree | scripts/supply_chain.py:98-102 | they do whenever markers do not depend on the extra |
| SupplyChain.ExtrasOfEarlierLineAreLost | scripts/supply_chain.py:80-84 | otherwise a needed package can be missing, depending on the order of two lines |
| SupplyChain.LinesDisagreeInAnyOrder | scripts/supply_chain.py:80-84 | two such lines select different dependencies of one package, whatever else is required |
| SupplyChain.CompletenessDependsOnOrder | scripts/supply_chain.py:80-84 | the same requirements in two orders: one list has every needed package, the other does not |
| TaskSubmission.StepKeepsInv | apps/web/components/NewTaskForm.tsx:199-233 | true answers, a form that matches the server, and a task with its images per success, through every step, also those by which the server forgets |
| TaskSubmission.TwoTasksExactly | backend/app/middleware/idempotency.py:95-186 | in any run, a key gets two tasks if and only if a request is taken under it, the server forgets it while that request is at work or its task exists, another is taken, and both create |
| TaskSubmission.ExactlyOncePerSuccess | apps/web/components/NewTaskForm.tsx:195-233 | in any run a different task per success, with the pressed images uploaded to it; and at most one task beyond the reported ones as long as that happens to no key |
| TaskSubmission.AtMostOneBetweenSuccesses | apps/web/components/NewTaskForm.tsx:195-200 | between two successes at most one task is created, under the same condition |
| TaskSubmission.ForgottenKeyCreatesAgain | backend/app/middleware/idempotency.py:174-186 | a run from the start in which a lost response and an expired key give two tasks and no success |
| TaskSubmission.LateFailureCreatesAgain | backend/app/api/tasks.py:257-274 | a run from the start in which a failure after the committed insert releases the key, and the retry creates another task |
| TaskSubmission.ExpiryAtWorkCreatesAgain | backend/app/middleware/idempotency.py:174-186 | a run from the start in which a key expires while its request is at work, and both that request and the retry create a task |
| SubmissionAnswers.AnswerableExactly | backend/app/middleware/idempotency.py:107-171 | the server can still send an attempt a task if and only if it did already, works on it, or its key is neither finished with another text nor left in progress with nobody at work |
| SubmissionAnswers.EditedAfterLossIsStuck | backend/app/middleware/idempotency.py:114-118 | after a lost response nothing but the original text, or the key's expiry, ever lets the form succeed |
| SubmissionAnswers.AbandonedKeyIsStuck | backend/app/middleware/idempotency.py:119-123 | after a request that died on the server no text does, only the key's expiry |
| SubmissionAnswers.StuckIsReachable | backend/app/middleware/idempotency.py:114-123 | runs from the start into both situations |
| SubmissionTexts.ReportsHavePressedText | apps/web/components/NewTaskForm.tsx:204-233 | with the text left alone meanwhile and no active key forgotten, every reported task has the pressed text |
| SubmissionTexts.ReportedTextExactly | apps/web/components/NewTaskForm.tsx:202-233 | in any run, with any images and retries, each success reports the text and images of the last press under its key, and its task has the text of the press whose request created it: the same if and only if the two presses had the same text |
| SubmissionTexts.SuccessResetsForm | apps/web/components/NewTaskForm.tsx:230-240 | in any run a step that adds a success leaves an empty form, no pending task, and the next key |
| SubmissionTexts.FormSinceSuccess | apps/web/components/NewTaskForm.tsx:202-240 | in any run the form holds the last edit since the last success, or nothing, whatever failed in between |
| SubmissionTexts.RequestTextIsNew | apps/web/components/NewTaskForm.tsx:202-240 | every request ever sent has a text that was put into the form after the success before it, or none |
| SubmissionTexts.UploadsWerePressed | apps/web/components/NewTaskForm.tsx:215-226 | every uploaded image was in the form at a press under its task's key |
| SubmissionTexts.FailedUploadIsRetried | apps/web/components/NewTaskForm.tsx:202-226 | a run from the start in which an upload stored everything and failed: the next press uploads again, for one task and one success |
| SubmissionTexts.EditWhileWaitingIsDropped | apps/web/components/NewTaskForm.tsx:204 | a run from the start that reports a text its task does not have |
| SubmissionTexts.RepliesHaveTheirText | backend/app/middleware/idempotency.py:129-150 | while no active key is forgotten, the row and the responses of a key belong to one request and have its text |
| SubmissionTexts.OtherTextIsReported | backend/app/middleware/idempotency.py:141-149 | otherwise not: a run without a late edit in which a request writes into the row of another one and its task is reported with the other text |
| RouteResolution.FindRouteHandler | backend/app/rate_limit.py:115-132 | the recursive search finds what a flat search of the flattened routes finds |
| RouteResolution.LastHitMeaning | backend/app/rate_limit.py:129-131 | the flat search finds the last full match that has an endpoint |
| RouteResolution.EmptyRouterHidesNothing | backend/app/rate_limit.py:121-125 | a nested router without a match never hides another handler |
| RouteResolution.IncludingIsListing | backend/app/rate_limit.py:120-125 | a nested router is the same as its routes listed in its place |
| FrameBatch.FrameBatcher.Schedule | apps/web/lib/frameBatch.ts:21-23 | asks for a frame only when none is outstanding, and keeps `frame` equal to the one outstanding callback |
| FrameBatch.FrameBatcher.FlushNow | apps/web/lib/frameBatch.ts:24-28 | flushes once if a frame was outstanding and takes its callback away, also when the flush schedules again |
| FrameBatch.FrameBatcher.CancelFrame | apps/web/lib/frameBatch.ts:29-32 | leaves no callback of this batcher |
| FrameBatch.FrameBatcher.Fire | apps/web/lib/frameBatch.ts:16-19 | a frame of the screen flushes once if and only if a callback was outstanding |
| FrameBatch.FrameBatcher.Perform | apps/web/lib/frameBatch.ts:14-34 | any sequence of uses, nested through the flush to any depth, behaves as specified, keeps the invariant and leaves other batchers' callbacks alone |
| FrameBatch.EachRequestServedOnce | apps/web/lib/frameBatch.ts:16-32 | requests and their one flush or cancel alternate, whatever is done and however the flush calls back |
| FrameBatch.RequestsAreConserved | apps/web/lib/frameBatch.ts:16-32 | requests are the flushes, the cancels and the outstanding one together |
| FrameBatch.EveryScheduleIsServed | apps/web/lib/frameBatch.ts:21-32 | after a schedule the next thing to happen is a flush or a cancel, unless the frame is still outstanding |
| FrameBatch.NextUseDecides | apps/web/lib/frameBatch.ts:16-32 | after a schedule the next use decides: a cancel cancels, flushNow and the frame flush at once; with nothing scheduled they do nothing |
| FrameBatch.WithoutCancelsAllFlushed | apps/web/lib/frameBatch.ts:16-32 | without a cancel, inside the flush or outside, every request but the outstanding one is flushed |
| FrameBatch.OneFlushPerFrame | apps/web/lib/frameBatch.ts:1-6 | k schedules before a frame give one flush, none give none |

## Left out

- Leader election: a pool size of zero (unbounded for the pool), locks that other programs take with the same key, cancelling a body other than as its end, and the path with leader election switched off, which only runs the loop.
- Dispatcher: the database session may show a row as it was read before in the same pass, so that a completion can be seen late, or still be seen after a task was restarted; the model reads the present row. The log entry, the repo path and the job itself are not modelled.
- DispatchProgress.AllDoneWithinN: takes completion of dispatched tasks between two passes as given; the pipeline that completes them is not part of this model. A job that cannot be started leaves its task in planning, where no pass looks.
- Prompt rollback: rounding of floating-point numbers; the file write, audit entry and event are left out, the two commits of one rollback are one step, and a stored time or deployment time that makes the pass raise is not modelled. The step Crash stands for every error that keeps the time from being stored, also one of the file write or of the store itself.
- Agent loop: exceptions of the model's API and of the callbacks, and the text of the log; tool inputs other than the two that the policy reads are one opaque field. Which paths and commands the engine's rules match is an open function.
- Demo data: the tasks, logs, runs, approvals, suggestions and roadmap that seeding adds after the projects; git commands; which of several kept projects a query returns first, since at most one exists. The file tree below one folder is a map from names to texts.
- DemoSeeding.ReseedingIsStable: users' inserts are taken to satisfy the database's own foreign-key constraints and not to carry the demo mark on a project.
- Closure analyses: parsing of Python and of requirements.txt, evaluation of the environment part of a marker, the first list and the final report of the blocking-calls script, licences, npm packages and the SBOM. Identifiers are taken to contain no dots.
- SupplyChain.ListIsExact: gives a sufficient condition. The list depends on the order in which requirements are popped: the same requirements are complete in one order and not in another (`CompletenessDependsOnOrder`), so an exact condition would have to follow the run.
- Task submission: PDF text, validation of images, and what the create request checks before it inserts; an upload that failed may have stored any part of its images.
- Route resolution: what a route matches; the match result is given with each route.
- Frame batcher: the screen's clock; frames arrive at any time or not at all.
- The pipeline graph, the fleet manager, the agents, the health endpoints and the user interface.
