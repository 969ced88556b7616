# Verified models of libudjat's hard parts

libudjat watches a machine through a tree of *agents*. Each agent has a value,
selects a *state* for it, shows the worst state of its children, schedules its
own updates, and activates and deactivates *alerts*. This project models the
parts of the library that change state in intricate ways, and the loops that
rewrite text, and proves what they keep. `dafny verify dfyconfig.toml` checks
everything.

| file | what it models |
|---|---|
| `Tree.dfy` | parent pointers and child lists, and the traversal order of `for_each` |
| `Agents.dfy`, `AgentTree.dfy` | the agent state machine: its transitions as functions, and the object whose methods carry them out with the loops and recursion of the source |
| `AgentAggregate.dfy` | incremental aggregation against a recomputation from scratch |
| `AgentEvents.dfy` | the log of activations, deactivations and readiness events |
| `AgentForward.dfy` | states forwarded to a whole subtree, and their release |
| `AgentEffects.dfy` | what one operation does to each field and to the log, and how far a start forwards |
| `AgentSchedule.dfy` | what state changes do to the update schedule |
| `AgentWitnesses.dfy` | runs from start that show the findings below |
| `SchedulerPass.dfy`, `Scheduler.dfy` | one pass of the update scheduler and the on-demand check; all interleavings of passes, tasks and checks |
| `ScheduledTree.dfy` | the scheduler and the state machine together, over all interleavings |
| `Alerts.dfy` | the alert retry machine and its controller |
| `Lookup.dfy` | paths of agents, lookup by path, insertion of what is missing |
| `Base64.dfy`, `Escape.dfy`, `Expand.dfy`, `Arguments.dfy` | the codecs and the text rewriting loops |

The pattern is the same everywhere. A class holds the fields the source updates
and its methods run the source's loops. Each method is proved equal to a
function from the old contents to the new ones. Lemmas then say what those
functions keep over whole runs, or compare them with an independent definition.
A state object is identified by a number that stands for its address, because
the source compares pointers. A time is an integer and the clock is an argument.

## Findings

Places where the code does something its documentation, or a reader, would not
expect. Each has a lemma that says exactly when.

- A forwarded state blocks only the direct children of the agent that activated
  it; every agent further down can still change state
  (`BlockIsOneLevelDeep`). States forwarded by `start` block nobody
  (`StartBlocksNobody`).
- A new value does not end a forward unless its state is at least as bad as the
  forwarded one: the children hold the forwarded state, so the aggregate brings
  it back (`ForwardSticksExactly`).
- A descendant that loses an old forwarded state and computes the new one by
  itself stops the forward: it is not flagged, and its subtree is not reached.
  `ForwardCoversExactly` gives the condition. The run in `ForwardCanMiss` assumes
  that the tables of both agents hold the same state object.
- Releasing a subtree does not aggregate it again (`ReleaseDoesNotAggregate`, and
  the run in `ReleasedUnaggregated`), and a state that a released agent had
  activated itself is never deactivated (`ChangeLeaks`, and the run in
  `ActivationLeaks`).
- A forward takes agents with timers off the schedule (`SetUnschedulesExactly`).
  When an agent below then changes state, which it may, the agents above it are
  not flagged as forwarded any more, but their timers stay off (`ClimbUnflags`,
  and the run in `OffTheSchedule`).
- With a retry interval of zero and something to retry, an alert can be idle by
  its own account while an emission is in flight (`ProtocolHoldsExactly`).
- Deactivating an alert during an emission does not stop the retry that follows
  (`DeactivationDuringEmission`).
- `success` and `failed` schedule the retry before the task clears `running`. A
  wakeup that comes between the two, late enough, starts a second emission, and
  the first task then clears the flag of the second
  (`FineProtocolHoldsExactly`).
- The timer interval of a scheduler pass is never late, whatever the configured
  minimum update time is (`UpdateAgents`).
- `escape` loses bytes from 128 to 254, because plain `char` is signed
  (`RoundTripsExactly` in `Escape`).
- Values are looked at again where they are inserted, so expansion ends exactly
  where keys nest to a bounded depth (`EndsExactly`); a key whose value is the
  key itself, written out, is rewritten for ever (`SelfReferenceNeverEnds`).
- Names match by prefix in `find`, so an earlier sibling can hide an agent from
  its own path (`OwnPathFindsExactly`).

## Model

| member | source | states |
|---|---|---|
| Tree.WalkIsTheSubtree | src/library/agent/child.cc:105-119 | `for_each` reaches every proper descendant exactly once and nobody else |
| Tree.WalkGoesBottomUp | src/library/agent/child.cc:105-119 | every agent is visited after everything below it |
| Tree.WalkGoesInOrder | src/library/agent/child.cc:105-119 | the subtree of a child is visited before the later children |
| Agents.FirstMatchIsFirst | src/include/udjat/agent.h:62-67 | the own state by position: the first entry whose range holds the value, or the unimportant default when none does |
| Agents.FoldIsFirstWorst | src/library/agent/update.cc:110-115 | by position: the start state unless a child is worse, else the state of the first of the worst children |
| AgentTree.AgentTree.ComputeState | src/include/udjat/agent.h:62-67 | by position: the state of the first entry whose range holds the value; the default state when none does |
| AgentTree.AgentTree.FoldChildren | src/library/agent/update.cc:110-115 | by position: the start state unless a child is worse, else the state of the first of the worst children |
| AgentTree.AgentTree.ReleaseEach | src/library/agent/state.cc:109-122 | exactly the descendants holding the origin's state go back to their own state, with the timer rearmed; no other agent changes |
| AgentTree.AgentTree.OnStateChange | src/library/agent/state.cc:68-190 | returns false and changes nothing for the same state; otherwise the whole new tree and the exact events, in order |
| AgentTree.AgentTree.Forward | src/library/agent/set.cc:93-104 | the whole tree and log after forwarding into one subtree |
| AgentTree.AgentTree.Set | src/library/agent/state.cc:192-246 | takes effect iff the state is new and the parent has not activated a forwarding state, whatever the agent's own mode; the climbing loop ends with the same tree as recomputing ancestors up to the first unchanged one |
| AgentTree.AgentTree.ValueUpdated | src/library/agent/update.cc:73-135 | the tree, timers and log after an update, changed or not |
| AgentTree.AgentTree.SetTo | src/include/udjat/agent.h:99-106 | the tree and log after a value is assigned; an equal value counts as an update without change |
| AgentTree.AgentTree.Failed | src/library/agent/state.cc:22-32 | the failure delay and the critical state, and their effect on the ancestors |
| AgentTree.AgentTree.Start | src/library/agent/start.cc:26-125 | the tree after a bottom-up start, forwarding included |
| AgentEffects.ChangeMoves | src/library/agent/state.cc:103-152 | a state change field by field, for every agent of the tree: the agent itself, the released descendants, all others untouched |
| AgentEffects.ChangeSays | src/library/agent/state.cc:81-181 | which of deactivation, activation, change of state, change of level and of readiness are logged, when and at which position |
| AgentEffects.SetActsExactly | src/library/agent/state.cc:192-216 | `set` changes nothing at all iff the parent has activated a forwarding state or the state is held already, in every world; otherwise the log grows |
| AgentEffects.SetTakesHold | src/library/agent/state.cc:204-216 | otherwise the agent holds the state and has activated it, unless an ancestor that holds the same forwarded state leaves it |
| AgentEffects.ClimbIsChanges | src/library/agent/state.cc:219-238 | the loop up the parents as a sequence of worlds: each parent in turn changes to what it computes, up to the first that holds that already or the root |
| AgentEffects.ForwardGoesInOrder | src/library/agent/set.cc:98-101 | the children are forwarded to one after the other, first to last |
| AgentEffects.ForwardStopsExactly | src/library/agent/set.cc:93-104 | nothing changes where the state is held; any other agent holds it, is flagged and off the schedule, and says so before its subtree |
| AgentEffects.UnchangedUpdate | src/library/agent/update.cc:73-87 | an update without change: the exact times, one notification and nothing else |
| AgentEffects.ChangedUpdate | src/library/agent/update.cc:89-121 | an update with a change, or a failure: the exact times and notification, then a `set` of the own state if that is forwarded and else of the first worst state |
| AgentEffects.TimesAfterStep | src/library/agent/update.cc:73-80 | the exact times an operation leaves on its own agent: the failure delay, or the timer when it has come; only a forward taken back above rearms it otherwise |
| AgentEffects.StartGoesInOrder | src/library/agent/start.cc:31-48 | the children start one after the other, each with its whole subtree |
| AgentEffects.StartComputes | src/library/agent/start.cc:73-86 | an agent whose own state is not forwarded starts with what it computes from its started children, and changes nobody else |
| AgentEffects.StartForwardsExactly | src/library/agent/start.cc:62-71 | an agent whose own state is forwarded starts with it; a descendant carries it iff the forward hits it in the tree the children's starts left, or it carried it there |
| AgentEffects.StartCovers | src/library/agent/start.cc:62-71 | the whole subtree carries it when no descendant computes it, whatever they selected before |
| AgentAggregate.ExactIsRecompute | src/library/agent/update.cc:100-119 | agents agreeing with their children everywhere is the same as every agent selecting the recomputation of its whole subtree |
| AgentAggregate.UpdatesKeepTheRecomputation | src/library/agent/state.cc:218-238 | without forwarding states, after start and any sequence of updates, every agent selects the full bottom-up recomputation although `set` stops early |
| AgentAggregate.SelectedIsWorstBelow | src/library/agent/update.cc:104-115 | what an agent selects is the own state of some agent of its subtree and at least as bad as all of them |
| AgentAggregate.FailuresStayLocal | src/library/agent/state.cc:22-57 | with failures in the run, every agent that has not failed since its last new value still agrees with its children |
| AgentAggregate.FailuresKeepLevelsOrdered | src/library/agent/state.cc:219-238 | in any mix of updates and failures every ancestor's level bounds its whole subtree |
| AgentAggregate.StartSettles | src/library/agent/start.cc:54-86 | after start every agent agrees with its children |
| AgentAggregate.StepSettles | src/library/agent/update.cc:73-135 | one update or failure keeps every other agent in agreement with its children |
| AgentAggregate.ClimbSettles | src/library/agent/state.cc:219-238 | if only the parent can disagree with its children, the climbing loop ends with nobody disagreeing |
| AgentEvents.NoStrayDeactivation | src/library/agent/state.cc:81-101 | in every run, forwarding included, each deactivation names the state the agent activated last, with no other switch in between |
| AgentEvents.ActivationsBalance | src/include/udjat/agent/abstract.h:109-127 | without forwarding states, activations minus deactivations is one exactly while the mode is StateWasActivated, else zero |
| AgentEvents.ChangeLeaks | src/library/agent/state.cc:103-124 | a state change loses an activation exactly when it releases a descendant that had activated the forwarded state itself |
| AgentEvents.ReadinessAlternates | src/library/agent/state.cc:175-181 | without forwarding states, READY and NOT_READY alternate strictly from the readiness at start and the last one matches the current readiness |
| AgentEvents.PairedMeans | src/library/agent/state.cc:81-89 | the observer's pairing flag implies the property of the log in terms of positions |
| AgentEvents.AlternatingMeans | src/library/agent/state.cc:175-181 | the observer's alternation flag implies strict alternation in terms of positions |
| AgentForward.ForwardedExactly | src/library/agent/state.cc:204-238 | after an unblocked set of a forwarding state a descendant carries it iff the forward hits it or it carried it before, and no ancestor takes the state back |
| AgentForward.ForwardCoversExactly | src/library/agent/state.cc:204-238 | the whole subtree carries the state iff that holds of every descendant |
| AgentForward.ForeignStateCovers | src/library/agent/set.cc:93-104 | a state no descendant selects or computes and no ancestor selects reaches the whole subtree, flagged and with updates off |
| AgentForward.LeavingReleases | src/library/agent/state.cc:103-124 | the next ordinary state gives every descendant back to its own value, unflagged, with its timer rearmed |
| AgentForward.ForwardThenRelease | src/library/agent/state.cc:192-246 | forward followed by an ordinary state leaves every descendant on the state its value computed before the forward |
| AgentForward.ForwardVisits | src/library/agent/set.cc:93-104 | one agent of the subtree: changed, flagged and switched off iff nobody from it up holds the state when reached, else left alone or released |
| AgentForward.ForwardReaches | src/library/agent/set.cc:93-104 | into one subtree: afterwards exactly the agents hit and those that carried the state before carry it |
| AgentForward.ClimbBelow | src/library/agent/state.cc:219-238 | recomputing the ancestors releases an agent below iff one of them leaves the forwarded state that agent holds, and changes nothing else below |
| AgentForward.ForwardSticksExactly | src/library/agent/update.cc:100-119 | a new ordinary state ends the agent's forward and releases the subtree iff it is at least as bad as the forwarded state; otherwise nothing below changes |
| AgentForward.SetUnblocks | src/library/agent/state.cc:199-202 | an agent whose set took effect is not blocked afterwards |
| AgentForward.BlockIsOneLevelDeep | src/library/agent/state.cc:199-202 | under an activated forward exactly the direct children are blocked |
| AgentForward.StartBlocksNobody | src/library/agent/start.cc:62-86 | after start nobody is blocked, even where start forwarded states |
| AgentForward.ReleaseDoesNotAggregate | src/library/agent/state.cc:109-122 | a released agent agrees with its children iff none of them computes a worse state |
| AgentWitnesses.ActivationLeaks | src/library/agent/state.cc:109-122 | a run of two values after which a child has activated a state that is never deactivated |
| AgentWitnesses.ReleasedUnaggregated | src/library/agent/state.cc:109-122 | a run of three values after which a released agent selects its default state above a child in error |
| AgentWitnesses.ForwardCanMiss | src/library/agent/set.cc:95-97 | a run in which a forward misses a descendant that did not hold the state, given one state object in both tables |
| AgentWitnesses.OffTheSchedule | src/library/agent/set.cc:93-104 | a run of two values after which an agent with a timer is not forwarded and has no next update |
| AgentSchedule.SetUnschedulesExactly | src/library/agent/state.cc:192-246 | a state change takes an agent with a timer off the schedule iff its forward hits that agent and no ancestor takes the state back |
| AgentSchedule.StepUnschedulesExactly | src/library/agent/update.cc:73-135 | the same for an update or failure, with the state it asks for |
| AgentSchedule.ClimbUnflags | src/library/agent/state.cc:219-238 | the parent that takes over a changed state is unflagged; its timer is rearmed only if an ancestor takes that state back |
| AgentSchedule.TimedAgentsStayExactly | src/library/agent/set.cc:93-104 | in every run of updates and failures a scheduled agent with a timer stays scheduled throughout iff no forward reaches it |
| AgentSchedule.QuietTreesKeepTheirTimers | src/library/agent/update.cc:73-80 | without forwarding states it stays scheduled in every run |
| AgentSchedule.RefreshReschedules | src/library/agent/update.cc:73-80 | a finished refresh leaves the agent's next time in the future iff there is a delay for that outcome or the next time already was |
| SchedulerPass.Controller.Visit | src/library/agent/controller.cc:189-240 | the exact times and flags one agent's turn leaves, what it adds to the list, and the next wakeup |
| SchedulerPass.Controller.VisitBelow | src/library/agent/child.cc:105-119 | the traversal marks every descendant once, queues the due ones in order and keeps the earliest next time |
| SchedulerPass.Controller.UpdateAgents | src/library/agent/controller.cc:182-251 | queues exactly the descendants that are due, not forwarded and not running, each once, marked at `now` and next after their timer; running ones are put off by 60 seconds; all others stay; afterwards every scheduled time is in the future and the timer passes none of them |
| SchedulerPass.Controller.Chk4Refresh | src/library/agent/update.cc:20-60 | which agents are refreshed, in order; the clocks are what those refreshes leave, whatever they write, and every running flag is as it was |
| SchedulerPass.CheckIsExact | src/library/agent/update.cc:20-60 | those are exactly the on-demand agents with no running agent on the way from where the check starts, each once |
| SchedulerPass.CheckOrderIs | src/library/agent/update.cc:25-56 | an agent is refreshed before what is below it, and nothing where it is running |
| SchedulerPass.CheckFromIs | src/library/agent/update.cc:51-56 | what is below a child is refreshed before what is below later children |
| SchedulerPass.ClocksAfterBoth | src/library/agent/update.cc:32-56 | refreshes take effect one after the other |
| SchedulerPass.OneRefresh | src/library/agent/update.cc:34-46 | what a refresh writes is what the clocks are afterwards |
| SchedulerPass.Controller.CheckChildren | src/library/agent/update.cc:51-56 | the loop over the children refreshes what a check of each child in turn does, in that order |
| SchedulerPass.QueueIsExact | src/library/agent/controller.cc:189-240 | membership in the queue is being due, and no agent is queued twice |
| SchedulerPass.DueInKeepsOrder | src/library/agent/controller.cc:189-240 | the queue has the order of the traversal |
| Scheduler.StepKeeps | src/library/agent/controller.cc:201-230 | every step of any thread, whatever clocks a refresh or state change writes, keeps the count of tasks and on-demand refreshes equal to the running flag, and the gate equal to the number of active passes |
| Scheduler.ReachableInv | src/library/agent/controller.cc:292-337 | the invariant holds in every reachable configuration |
| Scheduler.AtMostOneRefresh | src/library/agent/update.cc:20-46 | over every interleaving no agent has two refreshes in flight and no two passes run |
| Scheduler.RunningMeansOneTask | src/library/agent/controller.cc:253-289 | outside an on-demand check `running` is nonzero exactly when the agent has one marked, queued, executing or clearing task |
| Scheduler.TasksDrain | src/library/agent/controller.cc:257-285 | every task step brings the pool nearer to its end whatever the refresh returned or threw, and the last one clears the flag |
| Scheduler.NeverStuck | src/library/agent/controller.cc:253-289 | outside an on-demand check a running agent always has a task step that can be taken |
| Scheduler.PoolCanDrain | src/library/agent/controller.cc:253-289 | from every reachable configuration without an on-demand check some task steps end with no agent running, whatever each refresh writes |
| Scheduler.DrainingEndsIdle | src/library/agent/controller.cc:253-289 | from every configuration that keeps the invariant, outside an on-demand check, task steps come to an end in any order, and none is left iff no agent is running |
| Scheduler.CheckRunsToItsEnd | src/library/agent/update.cc:20-60 | the single steps of an on-demand check end with the clocks, running flags and order of `Chk4Refresh` and nothing in progress |
| ScheduledTree.JointRunsAreRuns | src/library/agent/controller.cc:253-289 | the scheduler with refreshes that end in the state machine's changes is a run of the scheduler, and both keep the same clocks |
| ScheduledTree.OneRefreshInTheTree | src/library/agent/update.cc:20-46 | while the tree changes under it, no agent has two refreshes in flight and `running` counts its tasks |
| ScheduledTree.MoveUnschedulesExactly | src/library/agent/set.cc:93-104 | a step of any thread takes an agent with a timer off the schedule iff it is a state change whose forward reaches that agent |
| ScheduledTree.TimedAgentsStayScheduled | src/library/agent/set.cc:93-104 | over every interleaving a scheduled agent with a timer stays scheduled throughout iff no forward reaches it |
| ScheduledTree.InterleavingsKeepAgreement | src/library/agent/state.cc:218-238 | without forwarding states, every agent that has not failed since its last new value agrees with its children in every interleaving |
| ScheduledTree.InterleavingsKeepTheRecomputation | src/library/agent/state.cc:218-238 | from start, in every interleaving with no failure outstanding, every agent selects the full recomputation of its subtree |
| Alerts.ProtocolHoldsExactly | src/library/alert/construct.cc:84-114 | one emission in flight, `running` saying so and nothing scheduled meanwhile, in all runs iff retries are spaced or there is nothing to retry |
| Alerts.RunKeepsProtocol | src/library/alert/construct.cc:165-181 | that protocol is kept from any state that has it |
| Alerts.BreakingBreaks | src/library/alert/construct.cc:218-230 | the run that breaks it for immediate retries |
| Alerts.CountersStayWithinLimits | src/library/alert/construct.cc:218-294 | in every run each counter is zero or below its limit between emissions |
| Alerts.ActivationSchedules | src/library/alert/construct.cc:169-181 | activating an idle alert clears the counters and schedules it after the start delay, or emits it at once without one |
| Alerts.ActivationAtSchedules | src/library/alert/construct.cc:183-198 | activating at a time schedules for that time, and clears the counters of an idle alert only |
| Alerts.DeactivationClears | src/library/alert/construct.cc:200-216 | deactivating clears counters and schedule and leaves an emission in flight |
| Alerts.CompletionRetries | src/library/alert/construct.cc:218-294 | a completion short of its limit is retried after the interval, with one more of its kind counted |
| Alerts.CompletionRestarts | src/library/alert/construct.cc:218-294 | a completion that reaches its limit clears the counters and restarts after the delay for its kind, if any |
| Alerts.WakeupEmits | src/library/alert/construct.cc:84-110 | an alert is emitted exactly when its time is set and has come |
| Alerts.NothingBeforeTheDelay | src/library/alert/construct.cc:169-181 | no run, with outside calls too, emits a newly activated alert before its start delay has passed |
| Alerts.NothingBefore | src/library/alert/construct.cc:84-114 | nothing happens to a scheduled alert before its time, be it a first emission, a retry or a restart |
| Alerts.ActivationIsBounded | src/library/alert/construct.cc:218-294 | without restart delays and outside calls at most max(1,min)+max(1,max)-1 emissions complete, and after that many `active()` is false |
| Alerts.LastsUntilALimit | src/library/alert/construct.cc:218-294 | such an activation ends at exactly the completion that reaches a limit, and is then inactive |
| Alerts.DeactivationDuringEmission | src/library/alert/construct.cc:200-216 | after deactivating during an emission the alert is active again iff that emission's outcome would be retried or restarted from zero |
| Alerts.ReschedulingKeepsProtocolExactly | src/library/alert/construct.cc:183-198 | activating at a given time keeps the protocol iff it does not schedule a running alert |
| Alerts.FineProtocolHoldsExactly | src/library/alert/construct.cc:95-110 | with the clock moving between the rescheduling and the clearing of `running`, the protocol holds in all runs iff no outcome of an emission schedules another |
| Alerts.PromptRunsKeepProtocol | src/library/alert/construct.cc:95-110 | with spaced retries it holds in every run in which no retry falls due between those two steps |
| Alerts.LateWakeupBreaks | src/library/alert/construct.cc:95-110 | the run with a wakeup between the two steps that starts a second emission before the first has ended, and whose flag the first then clears |
| Alerts.TwoStepsMakeOne | src/library/alert/construct.cc:95-110 | at a standing clock the two steps together are the single completion step |
| Alerts.FineStepsAreSteps | src/library/alert/construct.cc:169-216 | the other operations are the same at both grains |
| Alerts.Controller.Wakeup | src/library/alert/construct.cc:76-121 | emits exactly the due alerts; the timer is at most ten minutes, passes no scheduled alert, and is tight |
| Alerts.Controller.Activate | src/library/alert/construct.cc:169-181 | refused iff active; the new state of this alert and of all others |
| Alerts.Controller.ActivateAt | src/library/alert/construct.cc:183-198 | the new state of this alert and of all others |
| Alerts.Controller.Deactivate | src/library/alert/construct.cc:200-216 | refused iff inactive; the new state of this alert and of all others |
| Alerts.Controller.Success | src/library/alert/construct.cc:218-255 | the new state after a success, wakeup included |
| Alerts.Controller.Failed | src/library/alert/construct.cc:257-294 | the new state after a failure, wakeup included |
| Alerts.Controller.Complete | src/library/alert/construct.cc:95-110 | the new state after the whole tail of an emission task |
| Lookup.OwnPathFindsExactly | src/library/agent/child.cc:36-91 | looking up an agent's own path finds it iff no agent on the way has an earlier sibling whose name begins with its own |
| Lookup.InsertIsIdempotent | src/library/agent/child.cc:71-83 | insertion repeated returns the same agent and inserts nothing, keeps the tree consistent and disturbs no lookup that succeeded |
| Lookup.InsertFinds | src/library/agent/child.cc:71-83 | after insertion the path finds the returned agent, and only ends of child lists have grown |
| Lookup.NothingToInsert | src/library/agent/child.cc:57-69 | where the lookup succeeds insertion changes nothing and agrees with it |
| Lookup.SuccessSurvives | src/library/agent/child.cc:57-67 | a successful lookup is unchanged in every tree that extends this one |
| Lookup.PushedFits | src/library/agent/push_back.cc:38-50 | pushing a new agent keeps parent pointers and child lists consistent |
| Lookup.FindIsBelow | src/library/agent/child.cc:57-67 | a lookup only finds proper descendants |
| Lookup.FindStep | src/library/agent/child.cc:44-69 | one step of a lookup: into the first child whose name begins with the name asked for, letter case aside, and on with what follows the slash |
| Lookup.FailedLookup | src/library/agent/child.cc:40-42 | a lookup that fails is invalid for an empty path, an error if the agent is required, and otherwise gives none |
| Lookup.InsertStep | src/library/agent/child.cc:71-83 | where no child is named so: one new last child of that name, and the rest of the path inserted below it |
| Lookup.InsertGoesDown | src/library/agent/child.cc:57-69 | where a child is named so: the rest of the path is inserted below the first such child |
| Lookup.FindIgnoresCase | src/library/agent/child.cc:59 | paths that differ only in the case of letters find the same agent |
| Lookup.PathIsRelative | src/library/agent/get.cc:186-205 | the path is a slash followed by the names from the root's child down |
| Lookup.Registry.FindAgent | src/library/agent/child.cc:36-91 | the recursion over the children computes the lookup, with or without insertion, and changes nothing else |
| Lookup.Registry.PushBack | src/library/agent/push_back.cc:38-50 | the tree with the new agent last in the child list |
| Lookup.Registry.PathOf | src/library/agent/get.cc:186-205 | the two loops compute the path |
| Base64.Encode | src/library/tools/base64.cc:52-93 | the loops compute the encoding of section 4 of RFC 4648, stated on 24-bit groups |
| Base64.EncodedLength | src/library/tools/base64.cc:52-93 | the length is four characters for each three bytes begun |
| Base64.EncodedEnds | src/library/tools/base64.cc:75-89 | two `=` after one byte left over, one after two, none otherwise, and none before that |
| Base64.TestVectors | src/library/tools/base64.cc:52-93 | test vectors of section 10 of RFC 4648 |
| Base64.DecodingStops | src/library/tools/base64.cc:95-148 | decoding stops at the first character outside the alphabet, and how many bytes the letters before it give |
| Base64.EncodeOfDecode | src/library/tools/base64.cc:95-148 | full groups of letters come back when what they decode to is encoded |
| Base64.BytesOfEncoded | src/library/tools/base64.cc:95-148 | decoding an encoding gives the bytes back |
| Base64.DecodeOfEncode | src/library/tools/base64.cc:95-148 | decode returns the number of bytes if the buffer is larger than that and -1 if it is not and there are any |
| Base64.EncodeIsInjective | src/library/tools/base64.cc:52-93 | different bytes have different encodings |
| Base64.Decode | src/library/tools/base64.cc:95-148 | for every input string and buffer: the bytes of its longest prefix in the alphabet and their number, or -1 and the part that fits; nothing beyond is written |
| Base64.TableIsTheAlphabet | src/library/tools/base64.cc:42-45 | the table is the alphabet of RFC 4648 |
| Base64.FindIsValue | src/library/tools/base64.cc:109-110 | searching the table inverts the alphabet |
| Base64.EncodeBits | src/library/tools/base64.cc:62-65 | the byte masks and shifts select the four 6-bit groups |
| Base64.DecodeBits | src/library/tools/base64.cc:112-114 | the byte masks and shifts join four 6-bit groups |
| Escape.RoundTripsExactly | src/library/tools/url/unescape.cc:55-137 | unescaping an escaped string gives it back iff every byte survives: ASCII and 255 for any marker but NUL, letters and digits for NUL |
| Escape.PrintedIsTwoDigits | src/library/tools/url/unescape.cc:77-80 | an ASCII byte is printed as its two upper-case digits, as in section 2.1 of RFC 3986; a byte from 128 on as FF |
| Escape.EscapedAs | src/library/tools/url/unescape.cc:69-82 | each byte by number: letters and digits other than the marker stay, every other byte becomes the marker and two upper-case digits |
| Escape.HexValues | src/library/tools/url/unescape.cc:29-43 | the values of the hexadecimal digits in either case, by number |
| Escape.UnescapedAs | src/library/tools/url/unescape.cc:45-52 | the text before a marker stays; what the two bytes after it give, or which error |
| Escape.EscapedComesBack | src/library/tools/url/unescape.cc:93-137 | unescaping never fails on escaped text and gives every byte its image |
| Escape.EscapeLoop | src/library/tools/url/unescape.cc:55-91 | the loop computes the escaped text and its size check never fires |
| Escape.UnescapeLoop | src/library/tools/url/unescape.cc:93-137 | the loop computes the unescaped text or the first error, for any input |
| Expand.Text.Rewrite | src/library/tools/string/expand.cc:329-396 | the in-place loop ends with the rescanned text or an error wherever the source's loop ends at all; with the simultaneous substitution where no value begins a new key |
| Expand.Text.ExpandString | src/library/tools/string/expand.cc:329-396 | the same with slices taken off the keys |
| Expand.Text.ExpandFree | src/library/tools/expand.cc:29-61 | the same for the free-standing expander |
| Expand.ExpandersAgree | src/library/tools/expand.cc:29-61 | both expanders compute the same for a text without `[` in its keys, given the same resolver |
| Expand.MarkerFreeValuesAreUndisturbed | src/library/tools/string/expand.cc:379-385 | values without the marker character never begin a new key |
| Expand.OnlyKeysMatter | src/library/tools/string/expand.cc:372-373 | the result depends on the resolver only at the keys of the original text |
| Expand.SliceIsPart | src/library/tools/string/expand.cc:375-377 | a slice by length and positions, and when it is an error |
| Expand.PlainKeyIsRead | src/library/tools/string/expand.cc:341-373 | a key without `[` is the name to resolve |
| Expand.SlicedKeyIsRead | src/library/tools/string/expand.cc:344-370 | where the name ends, where the two numbers stand, and when the key is malformed |
| Expand.FirstKeyMeans | src/library/tools/string/expand.cc:332-341 | the key replaced next is the leftmost marker with a brace, up to the first closing brace after at least one character; or there is none, or it is not closed |
| Expand.UnknownKeysStay | src/library/tools/string/expand.cc:387-391 | a text all of whose keys are unknown comes out as it was, unless a key is not closed |
| Expand.LoopIsRescan | src/library/tools/string/expand.cc:334-393 | turn by turn the loop in place is the rescanning of the part of the text not yet finished |
| Expand.BadKeysFail | src/library/tools/string/expand.cc:337-370 | a key that is not closed, or malformed, is an error and nothing else |
| Expand.YieldsOne | src/library/tools/string/expand.cc:334-393 | a text has one result, however many turns are allowed |
| Expand.UndisturbedEnds | src/library/tools/string/expand.cc:334-393 | where no value begins a new key the loop ends, with the simultaneous substitution of the original text |
| Expand.EndsExactly | src/library/tools/string/expand.cc:334-393 | for values whose keys are complete in themselves the loop ends iff keys nest to a bounded depth |
| Expand.NestedKeysExpand | src/library/tools/string/expand.cc:334-393 | then it gives the substitution of fully expanded values |
| Expand.RankedIsShallow | src/library/tools/string/expand.cc:334-393 | keys nest to a bounded depth wherever a rank decreases from each key to the keys of its value |
| Expand.CyclesNeverEnd | src/library/tools/string/expand.cc:379-385 | keys whose values begin with keys of the same set are never finished, in any number of turns |
| Expand.TurnStandsStillExactly | src/library/tools/string/expand.cc:379-385 | a turn leaves the loop where it was iff the value of the key is the key itself, written out |
| Expand.SelfReferenceNeverEnds | src/library/tools/string/expand.cc:379-385 | such a text is not finished after any number of turns |
| Arguments.RoundTripsExactly | src/library/tools/arguments.cc:37-84 | parsing the space-joined print gives the list back iff every argument is nonempty, free of whitespace and does not begin with a quote |
| Arguments.ScanSpends | src/library/tools/arguments.cc:43-82 | a text with no character to spare parses into plain arguments only |
| Arguments.PlainComesBack | src/library/tools/arguments.cc:43-82 | plain arguments come back in order |
| Arguments.WordIsTaken | src/library/tools/arguments.cc:61-82 | a run that begins with no quote is one argument up to the next space |
| Arguments.QuotedIsTaken | src/library/tools/arguments.cc:47-59 | a quoted run is one argument without its quotes; a quote that is not closed is an error |
| Arguments.SkippedIsTheRest | src/library/tools/arguments.cc:39-41 | what is left is what follows the longest run of spaces |
| Arguments.SpacesAndQuotes | src/library/tools/arguments.cc:39-55 | the white space of the C locale and the two quotes, by number |
| Arguments.JoinSnoc | src/library/tools/arguments.cc:165-175 | one more argument prints after the separator |
| Arguments.ArgumentList.Append | src/library/tools/arguments.cc:86-96 | the array is one longer, holds the old entries, the new one and a terminating null |
| Arguments.ArgumentList.Parse | src/library/tools/arguments.cc:37-84 | fails iff a quote is not closed; otherwise the array holds the parsed arguments |
| Arguments.ArgumentList.Print | src/library/tools/arguments.cc:165-175 | the entries up to the null, with the separator between each two |

## Left out

- The root agent's overrides of `set`, `start`, `summary` and `computeState` (src/library/agent/root.cc): the model is the base agent.
- `computeState` of agents with string or boolean values: tables of integer ranges stand for all of them.
- Exceptions inside `onStateChange`, `updated` and `start`: `State::activate` and `deactivate` are `noexcept`, and the overrides that could throw elsewhere are not part of this model.
- `failed` is modelled with the state object it builds passed in; its message and error code are left out.
- Listeners: an event is an entry of the log; the tasks that `notify` pushes, and the exception for an orphaned agent, are left out.
- `Agent::reset`, `sched_update` and the first schedule set by the controller's `start`: they depend on the timer implementation.
- Unsynchronised reads and writes of `update.next` by threads that do not hold the mutex: each step of the scheduler model is atomic, and a state change with all its forwards is one step.
- A refresh that checks other agents on demand itself, from inside.
- `ThreadPool`, `MainLoop` and `Timer` internals: the pool is a multiset with any execution order, a timer is an interval.
- Alerts: the controller's methods take one time for the whole tail of an emission; its two steps at different times are modelled as transitions of one alert only.
- Alert counters and times are unbounded integers; the counters stay below their limits, so the width of `unsigned int` does not matter.
- `push_back` of an agent that already has a parent, and of objects that are not agents.
- Expansions that never end: `Rewrite` models the runs that do, and what never ends is stated of the turns.
- When values with unfinished keys end: `EndsExactly` takes values whose keys are complete in themselves.
- Keys, values and resolvers: a resolver is a function, strings hold no NUL, and reading the two numbers of a slice is a parameter.
- Text left behind by an expansion that throws.
- Escape: `isalnum` is taken in the C locale and plain `char` is signed and eight bits wide.
- Arguments: look-up by name, and the list of the running process.
- Logging, translations, XML, configuration, URL handlers, values and their writers, cryptography, sockets and the user interface.
