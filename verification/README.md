# Jenkins Idler: a verified model of the idling engine

The Jenkins Idler watches build and deployment config events of many tenants and scales each
tenant's Jenkins down when nobody needs it and up when a build does. This project models the
engine behind that in Dafny and proves what it keeps over all runs.

- `Model.dfy`, `ConditionEval.dfy`: snapshots (`User`), builds, deployment configs, and the two
  installed conditions with their evaluation loop.
- `BuildTracking.dfy`: how events edit a snapshot, and what a history of events leaves behind.
- `IdlerSpec.dfy`, `UserIdler.dfy`: one idler. The class `UserIdler` has the source's fields and
  methods, and each method is proved equal to a function of the old state and of the answers of
  the outside world (`Env`): the feature toggle for a user id, a clock reading per condition, pod
  state and capacity for a namespace, the client's reply per service, and the clock readings for
  the two time stamps it writes. What these functions come to is then stated on the fields of the
  snapshot, the status and the answers, with the source's literals.
- `IdlerMachine.dfy`: one idler and the handlers that feed it, as a state machine. A handler reads
  the user in one step and completes its send in another, so everything may fall in between.
  `IdlerMachine.RunsTheLoop` ties every run of the machine to a schedule of `UserIdler.Run`.
- `Lineage.dfy`, `Channel.dfy`, `Effects.dfy`, `IdleTimer.dfy`, `Shutdown.dfy`, `Deadlines.dfy`:
  theorems over all runs of that machine. `Reactions.dfy` follows an event to the requests it leads
  to. `Scenarios.dfy` builds runs that bring a chosen snapshot into the idler's
  hands. With them `LostBuilds.dfy` shows exactly when builds are kept, and `ExactWindows.dfy` how
  far two time windows reach, seen from a present moment over runs whose clock never goes back
  (`RunClock.dfy`).
- `Registry.dfy`, `Controller.dfy`, `DisabledUsers.dfy`, `Tenant.dfy`, `Api.dfy`: the controller and
  its maps, status requests, the capacity decision and the REST requests.
- `World.dfy`: all controllers, idlers and status requests together. `World.Projection` and
  `World.Genealogy` show that what a tenant lives through in the whole system is a run of its own
  machine from a fresh idler, so the theorems above hold for every tenant of every world run.

Times are integers (nanoseconds since Go's zero time, so `IsZero` is `== 0`); durations and
`maxRetries` may be negative unless a lemma says otherwise. Runs are arbitrary interleavings: every
check may get any answers from outside, and the tick that resets the retry counters may come at any
time. Clock readings are arbitrary too, so the theorems hold for clocks that are set back; where a
statement is about what can still happen, `RunClock.Timely` asks the readings of a run to be ordered.

## Findings

- The idle timer is one-shot. The comment on `Run` promises a check at every interval, but only a
  received snapshot arms the timer again: without events at most one timer check ever happens
  (`IdleTimer.OneShot`), and a timer check is to come exactly if the last receive is later than the
  last timer check, or neither happened yet (`IdleTimer.TimerCheckPossibleExactly`). The model
  follows the code.
- The comments on `Conditions.Eval` and on the conditions speak of true and false; the code takes
  the strongest of three actions, and still returns an action next to errors.
- A build can be lost: a deployment config event handled while the build's snapshot is under way
  carries the old builds and may arrive last. What an idler can end up with once no more build
  events come is exactly what the snapshots in play carry (`LostBuilds.EndsExactly`), so builds are
  kept for certain exactly when all of these carry them (`LostBuilds.SettlesExactly`); in every live
  state a build event that changes something can still be lost, and still be kept
  (`LostBuilds.ChangeIsOpen`). `Lineage.StaleSnapshotLosesBuild` is the shortest such run. With the
  channel drained between events nothing is lost (`Lineage.DrainedHistory`).
- The window that `doUnIdle` opens by writing `JenkinsLastUpdate` protects Jenkins, while it is yet
  to end, exactly when no older snapshot is under way (`ExactWindows.ProtectedExactly`).
- A check of a snapshot without a last update writes one, so a build can keep Jenkins alive for
  `idleAfter` past its own deadline, unless that deadline is over before the snapshot is checked;
  `ExactWindows.AsleepExactly` says exactly when, seen from a present moment, Jenkins can no longer
  be woken without new events.
- Idling and un-idling alternate exactly when every check that scales with success was told the
  scale of the moment (`Effects.Alternation`); the lag that a comment in `doUnIdle` warns of breaks
  it (`Effects.LaggingStateScalesUpTwice`).
- A tenant answer that holds errors and no tenant counts as "no such tenant" and shuts the
  namespace out for good as far as that controller goes: an idler appears only through another
  controller that has not listed the namespace either (`World.ErrorAnswerBansNamespace`,
  `World.AppearsExactly`).
- `IdleStatus` records success also when the call was skipped (`Effects.StatusRecordsDecision`).

## Model

| member | source | states |
|---|---|---|
| Model.GetByType | internal/model/openshift_objects.go:190-198 | the loop returns the first condition of the kind, and none exactly when no condition has it |
| Model.NamespaceRoundTrip | internal/openshift/controller.go:164 | for a watched deployment config, slicing "-jenkins" off and appending it give back its namespace, conversely every tenant's Jenkins namespace passes the filter and slices to the tenant, and nothing else passes |
| ConditionEval.OrderIndependence | internal/condition/condition.go:75-97 | any two orders of the same verdicts fold to the same action and the same bag of errors |
| ConditionEval.AnyVisitingOrder | internal/condition/condition.go:77-95 | visiting the conditions in any order yields un-idle if any says so, else idle if any says so, and an error exactly if some condition errs |
| ConditionEval.WatchVerdicts | internal/idler/user_idler.go:342-353 | the two installed conditions never err, and together say the stronger of the two opinions, each at its own clock reading |
| ConditionEval.OpinionWeakens | internal/condition/build_condition.go:44-103 | for a fixed user the joint action never strengthens as time passes, is never "no action", and once idle stays idle |
| ConditionEval.DecisionTable | internal/condition/build_condition.go:44-103 | on the fields of the snapshot: exactly when each of the two conditions wants Jenkins up, has no opinion, or wants it down |
| ConditionEval.SingleDeadline | internal/condition/deployment_config_condition.go:36-55 | there is one moment, the later of two deadlines, up to and including which Jenkins is wanted, and after which it is to be idled |
| ConditionEval.MultiError.Collect | internal/util/multi_error.go:19-23 | a present error is appended, an absent one changes nothing |
| ConditionEval.Conditions.Add | internal/condition/condition.go:101-103 | exactly the named entry is set |
| ConditionEval.Conditions.Eval | internal/condition/condition.go:60-98 | whatever order the loop picks, the result is the strongest opinion and the errors are those met in some order visiting each condition once |
| BuildTracking.TrackKeepsConsistent | internal/openshift/controller.go:119-149 | an event keeps: active phase in the active build, none in the done build, never the same build as both |
| BuildTracking.ReplayIdempotent | internal/openshift/controller.go:119-154 | handling an event again changes no build, and wakes the idler exactly if both names are empty or the done build is re-reported as active |
| BuildTracking.RepeatsInvisible | internal/openshift/controller.go:119-149 | any number of immediate re-deliveries of any events leaves the same builds as the history without them |
| BuildTracking.HistoryClosedForm | internal/openshift/controller.go:119-149 | done build: that of the latest non-active event; active build: that of the latest active event, or the cleared build if it was reported finished at or after it |
| BuildTracking.BuildSent | internal/openshift/controller.go:117-154 | a build that is news on its side is recorded whole, times included, and sent; an active build named like the done build is cleared and that is sent; nothing else changes or is sent |
| BuildTracking.RecordedEvents | internal/openshift/controller.go:119-149 | after any history each recorded named build is one of the handled events itself: the one that began the last unbroken stretch of events of its side with that name and phase |
| BuildTracking.AvailabilitySent | internal/openshift/controller.go:197-227 | the first "Available" entry decides: read as true, the held user with its time as last update is sent; as false, the held user; unreadable or missing, nothing |
| UserIdlers.UserIdler.constructor | internal/idler/user_idler.go:53-87 | a new idler has zero counters, an empty channel and the two conditions |
| UserIdlers.CreateWatchConditions | internal/idler/user_idler.go:342-353 | installs exactly the "dc" and "build" conditions |
| UserIdlers.UserIdler.Send | internal/openshift/controller.go:298-305 | with nobody receiving, a send appends to a channel with fewer than ten snapshots and otherwise changes nothing |
| UserIdlers.UserIdler.ScaleServices | internal/idler/user_idler.go:273-287 | the service loop makes the calls, and returns the error, of a pass that stops at the first failure |
| UserIdlers.UserIdler.DoIdle | internal/idler/user_idler.go:194-235 | new state, calls and error are those of the specification, whose guard is `Effects.IdleGuard` |
| UserIdlers.UserIdler.DoUnIdle | internal/idler/user_idler.go:237-300 | new state, calls and error are those of the specification, whose guard is `Effects.UnIdleGuard` |
| UserIdlers.UserIdler.CheckIdle | internal/idler/user_idler.go:101-141 | new state, calls and error are those of the specification, whose guard is `Effects.CheckGuard` |
| UserIdlers.UserIdler.ResetCounters | internal/idler/user_idler.go:337-340 | both counters are zero and nothing else changes |
| UserIdlers.UserIdler.Select | internal/idler/user_idler.go:160-189 | one select case has the effect of the specification's step, timer and stop included |
| UserIdlers.UserIdler.Run | internal/idler/user_idler.go:145-192 | for every feasible schedule the loop ends in the state, with the queue and the calls of the specified run, and cancelled exactly if the schedule cancels it |
| IdlerSpec.StoppedByCancel | internal/idler/user_idler.go:160-164 | the loop has stopped after a schedule exactly if it had before or the schedule cancels it |
| IdlerMachine.RunsTheLoop | internal/idler/user_idler.go:155-191 | every run of the machine with split handlers is a schedule of the select loop with the same state and calls |
| IdlerMachine.UninterruptedHandler | internal/openshift/controller.go:298-305 | a handler whose read and send are not separated acts as the one-step handler: appended if there is room, dropped if not |
| IdlerMachine.CheckEditsLittle | internal/idler/user_idler.go:130-138 | a check changes no build, name or id; it moves the last update only from zero and only to its own clock reading |
| Lineage.SnapshotLineage | internal/openshift/controller.go:105-154 | in every reachable state, whatever interleaves, the builds of every held, queued or pending snapshot are the fold of an in-order subsequence of the handled build events |
| Lineage.SnapshotInvariant | internal/openshift/controller.go:141-149 | in every state reachable from a fresh idler every snapshot has an active phase, a finished phase, and equal names only if both are empty |
| Lineage.IdentityKept | internal/model/user.go:61-68 | no run changes the name or id of any snapshot in play |
| Lineage.DrainedHistory | internal/openshift/controller.go:119-149 | if handlers only read when nothing is under way, a quiet idler holds exactly the builds of the closed form of the whole history |
| Lineage.StaleSnapshotLosesBuild | internal/openshift/controller.go:184-227 | the shortest loss: from any quiet live state, a build event followed by a deployment config event before the first receive ends with the old builds |
| LostBuilds.EndsExactly | internal/openshift/controller.go:184-227 | a live idler can end up, without further build events and with nothing under way, with exactly the builds of the held, queued and pending snapshots |
| LostBuilds.SettlesExactly | internal/openshift/controller.go:298-305 | every such run ends with the given builds if and only if every snapshot in play carries them |
| LostBuilds.ChangeIsOpen | internal/openshift/controller.go:105-154 | from any live state, however much is under way, a build event that changes the held builds can still be lost and can still be kept |
| Channel.ChannelIsFifo | internal/idler/user_idler.go:26 | over any run the queue stays within capacity, and queued then accepted is received then still queued, in order |
| Channel.RoomForTen | internal/idler/user_idler.go:26 | over any run from an empty channel a send can be completed exactly while fewer than ten accepted snapshots wait to be received, and given up exactly when ten do |
| Channel.SendsConserved | internal/openshift/controller.go:298-305 | over any run every offered snapshot is accepted, dropped or still pending, counted with multiplicity |
| Channel.DropChangesNothing | internal/openshift/controller.go:301-303 | giving up a send leaves the idler untouched, makes no call and loses just that snapshot |
| Effects.ServiceCallsAreOneLoop | internal/idler/user_idler.go:215-234 | one call per service in order up to and including the first failure, whose answer is the error; no error exactly if all succeed |
| Effects.IdleGuard | internal/idler/user_idler.go:194-235 | the idle loop runs exactly if the pod is starting or running and attempts remain, and costs one attempt |
| Effects.UnIdleGuard | internal/idler/user_idler.go:237-300 | the un-idle loop runs exactly if the pod is idled, the cluster has room and attempts remain, and costs one attempt |
| Effects.CheckGuard | internal/idler/user_idler.go:101-140 | a check runs the idle or the un-idle loop exactly under its full guard, never both, and otherwise makes no call |
| Effects.CheckErrors | internal/idler/user_idler.go:103-139 | a check fails exactly if an answer it needs is missing, the cluster is full, a condition errs or a call fails |
| Effects.CheckErrorKinds | internal/idler/user_idler.go:103-139 | each kind of error is reported exactly in its case, with the words of the failed answer |
| Effects.DatedExactly | internal/idler/user_idler.go:272-297 | a check replaces a zero last update, by its own reading, exactly if it runs the un-idle loop and no call fails; otherwise the last update stays |
| Effects.StatusRecordsDecision | internal/idler/user_idler.go:126-138 | the status is rewritten exactly by error-free checks that decide to act, and can report success without any call |
| Effects.EffectGuard | internal/idler/user_idler.go:194-300 | every call of every run is made by a check under the guard, for a configured service of the checked user's namespace |
| Effects.RetryCaps | internal/idler/user_idler.go:185-188 | over any run the counters stay within max(0, maxRetries), and calls of either kind are at most services * (cap * (resets + 1) - attempts already used) |
| Effects.AttemptsBetweenResets | internal/idler/user_idler.go:196-199 | without a reset in between attempts only grow and never pass the cap |
| Effects.Alternation | internal/openshift/client/openshift_client.go:262-268 | with one service, successful scale-downs and scale-ups strictly alternate over the whole run, starting as the scale calls for, if and only if every check that scales with success was told the scale of that moment |
| Effects.FaithfulIsEnough | internal/openshift/client/openshift_client.go:262-268 | a state read off the current scale at every check is enough for alternation |
| Effects.StateByReplicas | internal/openshift/client/openshift_client.go:262-268 | exactly when a deployment config reads as idled, starting or running |
| Effects.ByTurnsAlternates | internal/idler/user_idler.go:207-210 | taking turns means no two neighbouring operations are equal |
| Effects.LaggingStateScalesUpTwice | internal/idler/user_idler.go:245-249 | if the state still reads idled, two checks in a row scale up successfully |
| IdleTimer.OneShot | internal/idler/user_idler.go:156-183 | over any run timer checks plus the final charge are at most receives plus the initial charge |
| IdleTimer.TimerCheckPossibleExactly | internal/idler/user_idler.go:156-183 | after any run a live idler has a timer check to come exactly if its last receive is later than its last timer check, or neither happened and the timer was armed at the start |
| IdleTimer.TimerCheckExactly | internal/idler/user_idler.go:157-183 | over any run of a fresh idler a timer check can happen exactly if the loop is live, no timer check followed the last receive, or the start, and the interval has passed since it |
| IdleTimer.TimerChecksSpaced | internal/idler/user_idler.go:172-183 | no timer check comes earlier than the interval after the last arming, and between two of them a snapshot is received |
| Shutdown.StoppedExactly | internal/idler/user_idler.go:160-164 | over any run the loop is stopped exactly if it was at the start or was cancelled on the way |
| Shutdown.CancelIsFinal | internal/idler/user_idler.go:160-164 | a loop can be cancelled exactly while it is live; from then on it takes no signal, checks nothing and makes no call, whatever still arrives |
| Deadlines.KeepAliveHorizon | internal/idler/user_idler.go:293-297 | in any run without build events and availability reports, every check reading the clock past the bounds plus idleAfter decides to idle, makes no un-idle call, and may idle exactly if toggle, pod and cap allow |
| Deadlines.PastTheBounds | internal/condition/build_condition.go:44-103 | a check of a bounded snapshot that reads the clock past the bounds meets no error, decides to idle and makes no un-idle call |
| Deadlines.ScaleUpDates | internal/idler/user_idler.go:289-298 | a check whose scale-ups all succeed replaces a zero last update by its own clock reading |
| Deadlines.ProtectionWindow | internal/idler/user_idler.go:289-297 | after a scale-up from a zero last update with nothing else under way, no run without availability reports scales down at a reading up to idleAfter later |
| Reactions.NewsDecides | internal/condition/build_condition.go:44-103 | after an event of a new build Jenkins is wanted exactly if that build, at its own times, or the last update speaks for it |
| Reactions.BuildEventReaction | internal/openshift/controller.go:88-157 | from a build event to the requests: a quiet idler that hears of a new build scales up exactly if it is wanted, idled, and cluster and retries allow, down exactly if it is not wanted, up, and retries allow, and else makes no request |
| Reactions.ReportProtects | internal/openshift/controller.go:215-227 | once a quiet idler has handled a report of Jenkins being available, the last update is the time of the report, and until idleAfter past it neither that check nor any run without further reports scales Jenkins down |
| Reactions.FirstScaleUpDates | internal/idler/user_idler.go:289-297 | in any run of a fresh idler without availability reports nothing has a last update until the first successful scale-up, and that one writes it |
| ExactWindows.ProtectedExactly | internal/condition/deployment_config_condition.go:43-55 | at a present moment a live idler is protected by every run that can still happen until t + idleAfter if and only if that moment has passed or every snapshot in play was last updated at or after t |
| ExactWindows.AsleepExactly | internal/idler/user_idler.go:289-297 | at a present moment, no run without builds and availability reports that can still happen wakes a live idler's Jenkins after t if and only if no snapshot in play wants Jenkins both now or later and after t, and each without a last update is past its deadline already or would not reach past t even if dated at the last possible moment |
| ExactWindows.DateLate | internal/idler/user_idler.go:293-297 | a held snapshot without a last update whose deadline is yet to come can be dated as late as that deadline plus the delay of a check, which is how keeping alive goes on past the deadline |
| DisabledUsers.StringSet.Add | internal/model/stringset.go:18-22 | the loop adds exactly the listed elements |
| DisabledUsers.StringSet.Remove | internal/model/stringset.go:25-29 | the loop removes exactly the listed elements |
| DisabledUsers.SetUserIdlerStatus | internal/api/api.go:253-264 | a readable request disables, then enables; an unreadable one is refused and changes nothing |
| DisabledUsers.DisabledHistory | internal/api/api.go:260-262 | after any requests a user is disabled exactly if the last request mentioning it disables and does not enable it |
| Tenant.IndexOfNamespaceWithName | internal/tenant/tenant.go:97-104 | the first index with the name, or -1 exactly if there is none |
| Tenant.HasReachedMaxCapacity | internal/tenant/tenant.go:68-94 | an answer exactly if the lookup is free of errors and the first tenant has the namespace, and then the flag of its first entry |
| Controllers.UserIdlerMap.Store | internal/openshift/user_idler_map.go:34-42 | the entry is set and the count grows exactly for a new key |
| Controllers.UnknownUsersMap.Store | internal/openshift/unknown_users_map.go:36-40 | the user is added and nothing else |
| Controllers.Controller.CreateIfNotExist | internal/openshift/controller.go:232-286 | the five outcomes with both maps' new contents and the whole state of a new idler, its user field by field; a namespace in the shared map is always found, errors change neither map, an existing idler is never replaced |
| Registry.ResolveTable | internal/openshift/controller.go:239-263 | the shared map goes before the list of unknown users, that before the answer; more than one tenant is an error, none makes the namespace unknown, one gives the id |
| Controllers.Controller.EditForBuild | internal/openshift/controller.go:117-149 | the edit of the snapshot read is the tracking step of `BuildTracking`, and it is sent exactly if that step says so |
| Controllers.Controller.SendForBuild | internal/openshift/controller.go:105-154 | for an enabled user the channel gains exactly the tracked snapshot, if there is news and room; for a disabled one nothing |
| Controllers.Controller.SendForDeploymentConfig | internal/openshift/controller.go:184-228 | the same for a deployment config event, and an error exactly for an enabled user with an unreadable availability |
| Controllers.Controller.HandleBuild | internal/openshift/controller.go:88-157 | the idler's channel gains exactly the tracked snapshot if it is wanted, the user enabled and there is room; the idler's own state, its calls and all other idlers stay |
| Controllers.Controller.HandleDeploymentConfig | internal/openshift/controller.go:163-229 | the same for a deployment config event, and an error exactly for a failed lookup or an unparsable availability |
| World.Projection | internal/openshift/controller.go:105-153 | an idler, once there, is never replaced, and any world run is for it a run of its machine under the actions that concern it |
| World.Genealogy | internal/openshift/controller.go:265-275 | every idler of a reachable world is a fresh idler of its namespace after a run of its machine |
| World.TenantIsolation | internal/openshift/controller.go:265-271 | in every reachable world all snapshots in play for a namespace carry its name and the id of the first tenant in the answer that brought its idler into being |
| World.WatchFilters | internal/openshift/client/openshift_client.go:342 | builds of another strategy and namespaces without the suffix change nothing; "JenkinsPipeline" builds concern their namespace and deployment configs the tenant before "-jenkins" |
| World.ActsOnOne | internal/openshift/controller.go:288-291 | an action leaves every idler alone that it does not concern |
| World.CallsStayHome | internal/idler/user_idler.go:262-280 | every call of a reachable world targets the Jenkins namespace of its tenant, which is that of the tenant's deployment configs, and the toggle was on for the id of that tenant |
| World.WorldLineage | internal/openshift/controller.go:105-154 | in every reachable world every snapshot's builds are the fold of an in-order subsequence of the build events watched for its namespace |
| World.TenantInvariant | internal/openshift/controller.go:141-149 | in every reachable world snapshots are consistent, channels within capacity and counters within the cap |
| World.TenantBudget | internal/idler/user_idler.go:214-233 | the retry budget holds for each tenant in any further run, whatever the others do |
| World.LookupOutcome | internal/openshift/controller.go:251-271 | a conclusive answer adds exactly one entry to one map, any other leaves the world unchanged |
| World.AskedOnce | internal/openshift/controller.go:239-251 | after a conclusive answer the controller never asks about that namespace again |
| World.ErrorAnswerBansNamespace | internal/openshift/controller.go:256-262 | after an answer with errors and no tenant an idler for the namespace appears, in any later run, exactly if another controller that has not listed it hears of it and is given a tenant |
| World.AppearsExactly | internal/openshift/controller.go:239-275 | over any run an idler for a namespace appears exactly if at some step a controller that has not listed it hears of it and gets an answer with a tenant |
| World.DisabledInRun | internal/openshift/controller.go:113-116 | in any world run a user is disabled exactly as the last request mentioning it says |
| World.DisabledEnqueuesNothing | internal/openshift/controller.go:187-190 | in any reachable world, while a tenant stays disabled no event offers a snapshot to its idler, and an idler created meanwhile has none under way and keeps its initial builds |
| Api.TrimSpaceCuts | internal/api/api.go:134 | trimming removes all white space from both ends and nothing else |
| Api.ScaleServices | internal/api/api.go:165-177 | the request's service loop stops at the first failure and reports it |
| Api.Idle | internal/api/api.go:102-124 | calls and status of an idle request in every case |
| Api.UnIdle | internal/api/api.go:126-180 | the client is reached exactly for a known cluster, a namespace, a Jenkins that is not up and a cluster with room; each status code exactly in its case |
| Api.RequestAllowsWhatCheckDoes | internal/api/api.go:141-165 | whenever an idler scales up, a request under the same answers would make the same calls |

## Left out

- HTTP, JSON and the OpenShift client's requests: only their outcomes appear, as step inputs.
- The watch streams' retry loops and `Reset`: plumbing around the same inputs.
- `UserCondition` and the proxy lookup: not installed by `createWatchConditions`.
- Authentication, tokens, clusters, toggles, configuration, metrics, routing, logging and signals.
- The branch of `Conditions.Eval` for an argument that is not a user: the types rule it out.
- Texts of errors and reasons, `ToError`, `StateDump`, `String` methods and the `IsIdle` and `Status` requests: easy members only.
- The service name in the question for the pod state: it is the constant "jenkins", so the answers are given per namespace.
- Data races on the idler's user and between two controllers inside `createIfNotExist`: reading the user and creating an idler are atomic steps.
- Overflow of Go durations and times, and saturation of `Time.Sub`: times are unbounded integers.
- Cluster addresses and tokens: an idler shared by two controllers keeps the first one's, and this model does not tell them apart.
- `Delete` on the two maps: nothing in the modelled code calls it.
- UserIdlers.UserIdler.Send: the one-second wait is not modelled there; `IdlerMachine` models a send that stays pending, and lets it be given up only on a full channel.
- UserIdlers.UserIdler.Run: goroutine scheduling is a given schedule and the wait group is not modelled; the loop reports cancellation at the end instead of returning, so that arrivals after it still reach the queue.
- Controllers.Controller.CreateIfNotExist: starting the new idler's loop is not part of the contract; `World` gives a new idler an armed timer.
- IdlerMachine.RunsTheLoop: fairness and the speed of the runtime are not modelled, so nothing is said about when a step happens.
