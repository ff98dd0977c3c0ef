# Renovate operator: a verified model

The Renovate operator is a Kubernetes controller. A `RenovateScan` fires on a cron schedule and creates
`RenovateRun` objects; each Run discovers repositories, splits them into shards, stores the shards in a ConfigMap and
starts an Indexed Job whose workers each process one shard. This project models the two reconcilers, as steps over a
shared cluster whose status writes can be lost, together with the shard planner that joins the Runs to their workers,
and proves what holds of every history.

## Files

| file | models |
|---|---|
| `Prelude.dfy` | options, results and the order on optional instants |
| `Slugs.dfy`, `ShardKeys.dfy`, `ShardPlanner.dfy` | slug order and sorting, shard keys, `internal/sharding`, the worker entrypoint's view of the ConfigMap |
| `Names.dfy` | names of the per-Run Secret, ConfigMap and Job |
| `Cron.dfy` | fire times of a schedule |
| `RunModel.dfy` | one Run reconcile as a function of stored status, cluster and every answer from outside |
| `RunDecisions.dfy` | what a Run reconcile decides, by the answers it gets |
| `RunReconciler.dfy` | the Run reconciler as classes and methods, proved equal to `RunModel` |
| `FleetSystem.dfy`, `FleetTheorems.dfy`, `FleetDelivery.dfy`, `FleetSecrets.dfy`, `FleetTraces.dfy` | all Runs of a namespace with the Job controller: invariant, theorems over histories, what the workers were given, their tokens, histories that lose either |
| `ScanModel.dfy` | the Scan reconciler's decisions on values |
| `SchedulerSystem.dfy`, `SchedulerOrder.dfy`, `SchedulerHistory.dfy`, `SchedulerTraces.dfy`, `SchedulerExact.dfy`, `SchedulerSuccess.dfy` | one Scan, its Runs, foreign Runs, crashes and lost writes: invariants, theorems over histories, histories that run a fire twice or forget a success, and when exactly there are any |
| `ScanDecisions.dfy` | what a Scan reconcile decides, by its inputs and its Runs |
| `ScanReconciler.dfy` | the Scan reconciler as classes and methods, each reconcile proved to be a path of `SchedulerSystem` |

## How it is modelled

- Instants are integers in nanoseconds. What the API server stores of a `metav1.Time` is cut to whole seconds
  (`Cron.Stored`), which is why a completion can carry a stamp earlier than the instant it was read at.
- A write to the API server is `Applied`, `Rejected`, or `ReplyLost`: done although the caller sees an error.
- A status write is stored or lost as a whole, as in the conflict branch and the error branch after it.
- A Run reconcile is one step, placed at its status write. Its clock readings lie anywhere between the previous write of
  that Run and the step, so overlapping reconciles of different Runs are covered.
- A Scan reconcile is a series of steps, one per call to the API server. Run reconciles, Job progress, other Scans' Runs,
  the clock and a crash of the controller can come between any two of them. The Scan's spec may be different at every
  reconcile.
- `origin` in a ConfigMap or Job, `launched` and `token` in a Run, and `fires`, `done` and `newest` in the scheduler, are bookkeeping that no decision
  reads. A Job's `done` holds what each completed index was given, so its size is the Job's `Succeeded`.
- Terminal Runs are deleted by the pruning of their Scan. In `FleetSystem` a deleted Run stays on record, out of store, and its
  name is not used again: generated names carry a random suffix.
- A worker index completes only if its entrypoint can read a shard.
- The library's `Next` is any function that returns the least fire strictly after its argument; fires of a five-field
  expression lie on whole seconds at least a minute apart.

## What was found

- **Repeated fires.** A Scan never runs a fire twice exactly when its policy is not Allow and both history limits are at
  least one (`SchedulerExact.NeverRepeatsExactlyWhenStrict`). Even when every call and every write of both controllers
  succeeds, it repeats fires exactly when its policy is Allow or just one of the limits is zero
  (`SchedulerExact.NeverRepeatsSmoothlyExactlyWhenEven`): the refresh moves `LastRunTime` back to the completion of an
  older Run that is still listed. With both limits zero it takes a crash or a lost status write as well: a Run that ends
  before pruning lists the Runs is deleted at once, and then nothing tells that its fire was run.
- **Lost repositories.** An existing ConfigMap or Job is kept whatever a later attempt discovers. A Run can succeed without
  the last shards of its ConfigMap being processed (`FleetTraces.ShrunkDiscovery`), or without repositories that its
  status counts, even with one completion per key (`FleetTraces.ReplacedDiscovery`) and even with ConfigMap and Job in
  agreement (`FleetTraces.ReportedDiscovery`). If discovery grew in between, the Run can no longer succeed at all
  (`FleetTraces.GrownDiscovery`). `FleetDelivery.DeliversDiscoveryExactlyWhen` gives the exact conditions.
- **Long names.** A Run whose name agrees with another's on 56 characters finds that Run's Job under its own Job name and can
  succeed on it without any of its own repositories being processed (`FleetTraces.AdoptsExactlyWhenShared`). Runs that
  agree on 48 characters overwrite each other's Secret (`RunModel.FramesExactlyWhen`), and a name cut right after a
  hyphen gives an invalid Secret name (`Names.LabelsExactlyWhen`), as every Run of a Scan with a 47-character name does.
  All Runs of a Scan whose name has 55 characters or more have the same Job name, those of a Scan with 47 or more the
  same Secret name (`Names.ScansShareExactlyWhen`), so a later Run can succeed on the first one's Job.
- **Compressed shards.** The builder stores base64 over gzip; the entrypoint only runs `gunzip`. No worker can read an
  oversized shard (`ShardPlanner.EntrypointFindsShard`), so a Run that needs one never succeeds
  (`FleetDelivery.OversizedNeverSucceeds`).
- **Overflow.** Beyond 2^30 repositories the 32-bit worker count can be wrong (`ShardPlanner.ActualWorkersExact`).
- **Forgotten success.** With a successful-history limit of zero, `LastSuccessfulRunTime` can move back
  (`SchedulerSuccess.NeverForgetsExactlyWhenKept`).
- **Endless retries.** Invalid worker bounds and unparsable configuration are handled as transient
  (`RunModel.RetriedForever`).
- **Documentation that disagrees with the code**, which the model follows: `MinWorkers` workers are said to be launched
  "even for empty discovery" (`api/v1alpha1/renovatescan_types.go:105-106`), but an empty discovery fails the Run;
  `LastRunTime` and `LastSuccessfulRunTime` are said to be fire times (lines 210-216 there), but the refresh stores
  completion times.

## Model

| member | source | states |
|---|---|---|
| `Slugs.SortCorrect` | internal/sharding/shard_builder.go:110-112 | sorting yields the given slugs, each as often as given, with none before a smaller one |
| `Slugs.SortedUnique` | internal/sharding/shard_builder.go:98-101 | two sorted lists with the same slugs, counted with multiplicity, are equal |
| `Slugs.SortOrderIndependent` | internal/sharding/shard_builder.go:98-112 | two lists sort to the same list if and only if they hold the same slugs equally often |
| `Slugs.SortInPlace` | internal/sharding/shard_builder.go:112 | the in-place sort leaves the array equal to the reference sort of what it held |
| `ShardKeys.PaddedShape` | internal/sharding/shard_builder.go:42-50 | the padded index is its decimal digits with zeros in front up to four, as in `shard-0007.json` |
| `ShardKeys.PaddedRoundTrip` | internal/sharding/shard_builder.go:42-50 | the padded index can be read back, for every natural number including those of five digits and more |
| `ShardKeys.KeysDistinct` | internal/sharding/shard_builder.go:42-50 | plain keys are equal iff the indexes are, compressed keys likewise, and no plain key is a compressed key |
| `ShardPlanner.ValidateBounds` | internal/sharding/shard_builder.go:140-152 | the bounds pass if and only if 1 <= min <= max and reposPerWorker >= 1, and an error names a bound that is violated |
| `ShardPlanner.ComputeActualWorkers` | internal/sharding/shard_builder.go:155-165 | for every input, overflowing or not, the worker count lies between the bounds |
| `ShardPlanner.ActualWorkersExact` | internal/sharding/shard_builder.go:154-165 | the 32-bit expression is the clamped ceiling if and only if the sum fits, or the ceiling does not exceed the minimum, or the bounds coincide |
| `ShardPlanner.ActualWorkersUpTo2Pow30` | internal/sharding/shard_builder.go:154-165 | up to 2^30 repositories it is the clamped ceiling for all valid bounds |
| `ShardPlanner.ActualWorkersWrongBeyond2Pow30` | internal/sharding/shard_builder.go:154-165 | at 2^30 + 1 there are valid bounds where the ceiling is 2 and the result 1 |
| `ShardPlanner.AssignRoundRobin` | internal/sharding/shard_builder.go:167-176 | shard j of n is exactly the slice of every n-th repository starting at j |
| `ShardPlanner.StrideAt` | internal/sharding/shard_builder.go:167-176 | position k of the slice from j is element j + k * n of the list, and there is one exactly if the list is that long |
| `ShardPlanner.GatheredAll` | internal/sharding/shard_builder.go:167-176 | all shards together hold every repository exactly as often as the input |
| `ShardPlanner.GatheredPrefix` | internal/sharding/shard_builder.go:167-176 | the first k shards hold everything if and only if k is the shard count or at least the number of repositories |
| `ShardPlanner.ShardsBalanced` | internal/sharding/shard_builder.go:167-176 | the sizes of any two shards differ by at most one |
| `ShardPlanner.ShardsWithinTarget` | internal/sharding/shard_builder.go:154-176 | with the worker count the code computes, no shard exceeds reposPerWorker if and only if the ceiling is at most minWorkers, or at most maxWorkers with the 32-bit sum in range |
| `ShardPlanner.ShardsAtMost` | internal/sharding/shard_builder.go:167-176 | for any shard count and size, no shard exceeds the size if and only if there are at least as many shards as groups of that size |
| `ShardPlanner.Build` | internal/sharding/shard_builder.go:102-138 | the builder's copy, in-place sort, assignment loop and filling loop compute the plan specified on values, with both error cases |
| `ShardPlanner.BuildOrderIndependent` | internal/sharding/shard_builder.go:98-138 | inputs with the same repositories in any order give the same error or the same worker count, data and compression flags |
| `ShardPlanner.PlanFailsExactlyWhen` | internal/sharding/shard_builder.go:103-108 | there is no plan if and only if there is no repository or the bounds are invalid, and the error says which |
| `ShardPlanner.PlanCounts` | internal/sharding/shard_builder.go:114-137 | keys, flags and worker count are equally many |
| `ShardPlanner.PlanShard` | internal/sharding/shard_builder.go:117-137 | worker i finds its payload, numbered i of n with its stride, under its own key in exactly one form, plain iff its JSON text has at most 900 KiB, and the flag tells which |
| `ShardPlanner.JsonSizeIsLength` | internal/sharding/shard_builder.go:61-70 | the size that decides on compression is the length of the JSON text |
| `ShardPlanner.DataCount` | internal/sharding/shard_builder.go:117-137 | the ConfigMap data has exactly one key per shard |
| `ShardPlanner.EntrypointFindsShard` | internal/jobspec/entrypoint.go:29-40 | worker i gets exactly shard i, or nothing if there is no such shard or it was compressed |
| `ShardPlanner.ManySlugsOversized` | internal/sharding/shard_builder.go:125-133 | with slugs of at least 20 characters and at least 40070 repositories per worker, every shard is compressed and no worker gets anything |
| `ShardPlanner.NumberedOversized` | internal/sharding/shard_builder.go:125-133 | a concrete list of distinct slugs that does so with one worker |
| `ShardPlanner.PlannedDataServes` | internal/jobspec/entrypoint.go:29-40 | planned for n workers there are n keys; what worker i gets is the stride from i of the sorted list, and it gets it iff the shard is not compressed |
| `Names.NamesFit` | internal/jobspec/job_builder.go:180-189 | Secret and Job names fit the 63-octet label limit for every Run name |
| `Names.LabelsExactlyWhen` | internal/credentials/mirror.go:50-59 | for a Run name in label form the Job name is always a valid label, the Secret name if and only if the name is not cut right after a hyphen |
| `Names.LongScanNames` | internal/controller/renovatescan_controller.go:316 | every Run of a Scan with a 47-character name has an invalid Secret name |
| `Names.ScansShareExactlyWhen` | internal/controller/renovatescan_controller.go:316 | all Runs of a Scan share one Secret if and only if its name has at least 47 characters, and one Job if and only if at least 55 |
| `Names.SharedExactlyWhen` | internal/credentials/mirror.go:48-59 | two Runs share a Secret iff their first 48 characters agree, a Job iff their first 56 do, a ConfigMap iff the names are equal |
| `Names.ApartIsolated` | internal/credentials/mirror.go:48-59 | names of any length that do not agree on 48 characters share no object |
| `Names.ShortNamesIsolated` | internal/credentials/mirror.go:48-59 | in particular different names of at most 48 characters share none |
| `Cron.Schedule.NextIsLeastFire` | internal/controller/renovatescan_controller.go:52-58 | the assumed contract of the library: Next is a fire, and no fire lies strictly between the argument and it |
| `Cron.EveryMinuteValid` | internal/controller/renovatescan_controller.go:60-61 | the contract can be met: the every-minute schedule meets it, and its fires are exactly the whole minutes |
| `Cron.ComputeFireTimes` | internal/controller/renovatescan_controller.go:211-231 | the walk ends; missed is the greatest fire after the start up to now, or none if there is none; next is the least fire after both |
| `Cron.FireTimesUnique` | internal/controller/renovatescan_controller.go:209-231 | both results are determined by the schedule, and no fire lies between them |
| `Cron.WalkWithoutFuture` | internal/controller/renovatescan_controller.go:224-229 | if the library only ever answered with instants not after now, the loop condition would hold after every number of rounds |
| `Cron.WalkEndsExactlyWhen` | internal/controller/renovatescan_controller.go:224-229 | for a library that answers with the least later fire, or a fixed past instant if there is none, the walk ends if and only if there is a fire after now |
| `Cron.CapRequeueAfter` | internal/controller/renovatescan_controller.go:416-424 | the delay is positive, at most five minutes, and never beyond a fire still ahead |
| `Cron.WakesAtFire` | internal/controller/renovatescan_controller.go:167 | the controller wakes up exactly at the next fire if that is within five minutes, and otherwise after five minutes |
| `Cron.FirstBoundaryNotJumped` | internal/controller/renovatescan_controller.go:159-167 | in any series of reconciles each less than a minute late, the first one at or after the first boundary reports it |
| `Cron.ReportedWithinGrace` | internal/controller/renovatescan_controller.go:216-222 | a past boundary is reported to a Scan that never ran if and only if it is less than a minute old |
| `RunModel.ReconcileKeepsWellFormed` | internal/controller/renovaterun_controller.go:132-304 | one reconcile keeps the status well formed (conditions match phases, completion time iff terminal, Discovered iff a Job reference, Started when running or ended, stamps in order), never moves the phase back, and changes nothing once terminal |
| `RunModel.PersistKeepsWellFormed` | internal/controller/renovaterun_controller.go:119-129 | cutting the stamps to seconds keeps all of that, order of stamps included |
| `RunModel.ReconcileEffects` | internal/controller/renovaterun_controller.go:419-529 | a reconcile creates at most one ConfigMap and one Job, only where none existed, from this attempt's repositories, the Job only beside a ConfigMap; it rewrites none, and does nothing to the cluster once running |
| `RunModel.ReconcileRefs` | internal/controller/renovaterun_controller.go:219-284 | a Job reference is set only to a Job that exists; success is reached only from running, with as many completed indexes as completions |
| `RunModel.RecordedExactlyOnTerminal` | internal/controller/renovaterun_controller.go:537-551 | the counter is incremented iff the reconcile makes the phase terminal, with the matching result, after the completion time was set |
| `RunModel.ReconcileReports` | internal/controller/renovaterun_controller.go:211-226 | a reconcile keeps the reported worker count the one for the reported number of repositories, gives a Job reference only with the Secret in place and together with the number of repositories of that attempt, and reports on success the number of completed indexes |
| `RunModel.DispatchPhase` | internal/controller/renovaterun_controller.go:207-241 | a dispatch reaches Running if and only if bounds and configuration are usable and every read and needed creation succeeded |
| `RunModel.ReconcileLocal` | internal/controller/renovaterun_controller.go:419-529 | clusters that agree on a Run's own three objects give the same status, count and own objects |
| `RunModel.ReconcileFrames` | internal/controller/renovaterun_controller.go:419-529 | a reconcile leaves all objects of another Run alone unless the names agree on 48 characters |
| `RunModel.FramesExactlyWhen` | internal/controller/renovaterun_controller.go:419-443 | no reconcile of a Run touches an object of another if and only if their names do not agree on 48 characters |
| `RunModel.ReconcilesCommute` | internal/controller/renovaterun_controller.go:419-529 | the reconciles of two Runs whose names do not agree on 48 characters give the same statuses, counts and cluster in either order |
| `RunModel.ProgressUnlessTransient` | internal/controller/renovaterun_controller.go:154-242 | with usable bounds and configuration an attempt stays in Discovering if and only if it met a transient failure, otherwise it is Running or Failed |
| `RunModel.NeverLaunched` | internal/controller/renovaterun_controller.go:207-222 | with unusable bounds or configuration no attempt reaches Running |
| `RunModel.BoundedProgress` | internal/controller/renovaterun_controller.go:375-396 | over any series of stored reconciles with at most k transient failures, the Run is Running or ended after k + 1 |
| `RunModel.RetriedForever` | internal/controller/renovaterun_controller.go:207-222 | without usable bounds and configuration a Run that keeps finding repositories stays in Discovering for any number of reconciles |
| `RunDecisions.DiscoveryProbed` | internal/controller/renovaterun_controller.go:329-350 | with the probe, discovery yields a list iff no probe fails: exactly the candidates with a config, in order, each once; otherwise the first failing probe decides whether the error is transient |
| `RunDecisions.DiscoveryPlain` | internal/controller/renovaterun_controller.go:323-331 | without it every candidate is taken in order; a failed discovery is reported as it failed |
| `RunDecisions.MirrorWrites` | internal/controller/renovaterun_controller.go:419-443 | exactly the Run's own Secret is written, over an existing one too, with the minted token, iff there is one and the calls go through |
| `RunDecisions.AttemptDecided` | internal/controller/renovaterun_controller.go:154-242 | everything an attempt does by what it met: Running, Failed or Discovering each iff its cause, every condition with its reason, each stamp, the counts and references, the token in the Secret, and which objects exist afterwards |
| `RunDecisions.RunningDecided` | internal/controller/renovaterun_controller.go:246-304 | a running Run succeeds iff as many indexes completed as completions, fails iff the Job failed short of that or is gone, otherwise stays; counts, stamps, conditions and the recorded result follow, and the cluster is only read |
| `RunDecisions.RestDecided` | internal/controller/renovaterun_controller.go:143-147 | in every other phase nothing happens |
| `RunDecisions.DefaultsFilledIn` | internal/controller/renovaterun_controller.go:446-459 | zero bounds become 1, 10 and 50, others stay, and the result is valid iff the given bounds meet a condition on themselves |
| `RunDecisions.PersistLosesFractions` | internal/controller/renovaterun_controller.go:119 | storing cuts the four stamps to whole seconds and changes nothing else |
| `RunReconciler.Reconciler.MarkFailed` | internal/controller/renovaterun_controller.go:382-390 | completion time, phase, condition and counter change as in the value model, nothing else |
| `RunReconciler.Reconciler.DiscoverRepos` | internal/controller/renovaterun_controller.go:306-351 | the loop keeps the repositories with a config in order; the first failing probe decides the result |
| `RunReconciler.Reconciler.MirrorCredential` | internal/controller/renovaterun_controller.go:419-443 | the Run's Secret is created or overwritten with the token, and no other Secret changes |
| `RunReconciler.Reconciler.EnsureShardConfigMap` | internal/controller/renovaterun_controller.go:445-493 | the ConfigMap is created if absent; an existing one is kept and paired with the present worker count |
| `RunReconciler.Reconciler.EnsureWorkerJob` | internal/controller/renovaterun_controller.go:495-529 | the Job is created if absent, with parallelism and completions equal to the worker count |
| `RunReconciler.Reconciler.DiscoverAndDispatch` | internal/controller/renovaterun_controller.go:154-242 | status, cluster and counter are those of the value model in every way the handler can end |
| `RunReconciler.Reconciler.DispatchWorkers` | internal/controller/renovaterun_controller.go:207-242 | the second half of the handler, likewise |
| `RunReconciler.Reconciler.ObserveJob` | internal/controller/renovaterun_controller.go:246-304 | status and counter are those of the value model; the cluster is only read |
| `RunReconciler.Reconciler.Reconcile` | internal/controller/renovaterun_controller.go:132-148 | the phase switch refines the value model for every phase, unknown ones included |
| `FleetSystem.StepKeepsInv` | internal/controller/renovaterun_controller.go:84-148 | every step, the pruning of a terminal Run included, keeps: statuses well formed, references to existing Jobs, ConfigMap data and Job size planned for some discovered list, completed indexes served from that ConfigMap, counts exact, only ended Runs deleted |
| `FleetSystem.AlwaysInv` | internal/controller/renovaterun_controller.go:84-148 | this holds after every history |
| `FleetTheorems.HistoryOnlyGrows` | internal/controller/renovaterun_controller.go:445-529 | between any two points of a history, for Runs of any names: phases never move back, the status of a terminal Run never changes while it is in store, a ConfigMap never changes or goes, a Job is never recreated or resized and keeps what its completed indexes were given |
| `FleetTheorems.StoredStatusesWellFormed` | internal/controller/renovaterun_controller.go:113-148 | every stored status reachable from the empty cluster is well formed, so the running phase always has a Job reference |
| `FleetTheorems.CounterConserved` | internal/controller/renovaterun_controller.go:537-551 | the counter is the number of Runs ever stored as terminal plus the terminal transitions whose write was lost; it equals the terminal Runs in store iff none was lost and none pruned, and is never less |
| `FleetTheorems.StatusesTruthful` | api/v1alpha1/renovaterun_types.go:76-101 | in every history stored counts and references agree with each other, with the attempt that launched the workers and with the cluster; a Run that succeeded reports exactly as many shards as its Job has completions |
| `FleetDelivery.CompletionsMatchKeysExactlyWhen` | internal/jobspec/job_builder.go:72-74 | completions equal the number of shard keys if and only if both discovered lists call for the same worker count; equal repositories suffice |
| `FleetDelivery.IndexCompletesExactlyWhen` | internal/jobspec/entrypoint.go:29-40 | an index that is not done can complete if and only if its shard exists and is not compressed |
| `FleetDelivery.SucceededDelivers` | internal/controller/renovaterun_controller.go:263-284 | for Runs of any names: a Run that succeeded had every index below completions done with its own stride of the list behind the ConfigMap; together they hold that list, each slug as often as it is in it, iff completions equal the keys or no missing shard holds any |
| `FleetDelivery.DeliversDiscoveryExactlyWhen` | internal/controller/renovaterun_controller.go:480-528 | three lists can differ, those behind the ConfigMap, behind the Job and behind the reported count: all three were processed exactly iff they hold the same slugs equally often; the reported one was processed iff the leading shards of the ConfigMap, as many as completions, hold it |
| `FleetDelivery.OversizedNeverSucceeds` | internal/jobspec/entrypoint.go:33-36 | a Run whose Job has an index with a compressed shard is never Succeeded |
| `FleetDelivery.SucceedsExactlyWhenReadable` | internal/jobspec/entrypoint.go:29-40 | a Run that is running can still succeed if and only if its Job has no more completions than there are shards and no shard below the completions is compressed |
| `FleetDelivery.LookDecides` | internal/controller/renovaterun_controller.go:263-304 | in any history, a stored look at the Job makes a running Run Succeeded iff all completions are done, Failed iff the Job failed short of them, and leaves it Running otherwise |
| `FleetDelivery.FailedJobFailsRun` | internal/controller/renovaterun_controller.go:286-302 | a running Run whose Job failed short of its completions can reach Failed, counted once |
| `FleetDelivery.AloneExactlyWhen` | internal/jobspec/job_builder.go:180-189 | a Run has its Job name to itself if and only if no other Run agrees with it on 56 characters |
| `FleetDelivery.OwnObjects` | internal/controller/renovaterun_controller.go:495-529 | such a Run observes the Job and ConfigMap that it created itself |
| `FleetDelivery.StableOrigins` | internal/controller/renovaterun_controller.go:445-529 | if all attempts of such a Run that found repositories found the same ones, ConfigMap and Job are both made from them |
| `FleetDelivery.SucceededDeliversDiscovery` | internal/controller/renovaterun_controller.go:207-284 | with such discovery and a Job name of its own, a Run that succeeded processed exactly what it discovered, through any failures, retries and lost writes |
| `FleetSecrets.LaunchStoresToken` | internal/controller/renovaterun_controller.go:435-440 | a reconcile that launches leaves the token it was given in the Secret, over whatever was there |
| `FleetSecrets.LaunchTokenKept` | internal/controller/renovaterun_controller.go:415-443 | in every history the Secret of a launched Run holds the token of its launching attempt, unless another Run agrees on 48 characters |
| `FleetSecrets.JobsMountOwnSecret` | internal/controller/renovaterun_controller.go:501-511 | in every history a Job mounts the Secret of the Run that created it |
| `FleetTraces.ShrunkDiscovery` | internal/controller/renovaterun_controller.go:480-492 | a reachable state where discovery shrank before the Job was created: a Run succeeded and a repository of its ConfigMap was never processed |
| `FleetTraces.ReplacedDiscovery` | internal/controller/renovaterun_controller.go:480-492 | one where a repository replaced another: completions equal the keys, and still a reported repository was never processed |
| `FleetTraces.ReportedDiscovery` | internal/controller/renovaterun_controller.go:516-528 | one where the Job existed although its creation had seemed to fail: ConfigMap and Job agree, and the reported repositories were never processed |
| `FleetTraces.GrownDiscovery` | internal/controller/renovaterun_controller.go:480-492 | one where discovery grew before the Job was created: more completions than shards, and the Run can no longer succeed |
| `FleetTraces.LaunchedUnreadable` | internal/jobspec/entrypoint.go:33-36 | one where a Run with one worker and 40070 repositories is running and can no longer succeed, its shard being compressed |
| `FleetTraces.PrunedStillCounted` | internal/controller/renovatescan_controller.go:392-407 | one where the counter is 1, nothing was lost, and no terminal Run is in store |
| `FleetTraces.AdoptsJob` | internal/controller/renovaterun_controller.go:526-527 | for any two names that agree on 56 characters, one where a Run succeeded on the other one's Job and its own repository was never processed |
| `FleetTraces.AdoptsExactlyWhenShared` | internal/controller/renovaterun_controller.go:516-528 | a Run can succeed on the Job of another if and only if their names agree on 56 characters |
| `FleetTraces.TokenLostExactlyWhenShared` | internal/credentials/mirror.go:48-59 | of two Runs one can lose its token to the other if and only if their names agree on 48 characters |
| `ScanModel.ActiveOfMeaning` | internal/controller/renovatescan_controller.go:256-287 | the active list holds exactly the listed Runs that the Scan owns and that are not terminal |
| `ScanModel.LatestOfMeaning` | internal/controller/renovatescan_controller.go:257-293 | the refreshed time is the completion of an ended Run of the Scan, and none is later, whatever the order of the list |
| `ScanModel.ExcessIsOldest` | internal/controller/renovatescan_controller.go:392-407 | pruning picks only Runs of the class beyond the limit, and everything kept is at least as recent as everything picked |
| `ScanModel.SortRecentCorrect` | internal/controller/renovatescan_controller.go:396-400 | sorting by recency keeps exactly the given Runs, most recent first |
| `ScanDecisions.GateDecides` | internal/controller/renovatescan_controller.go:116-147 | a reconcile goes on to its Runs iff the Scan is not suspended, its platform is ready and its schedule valid; otherwise it sets Ready to false at most, with the reason of the cause |
| `ScanDecisions.GatedScanStaysIdle` | internal/controller/renovatescan_controller.go:116-147 | while every reconcile is stopped there, the Scan creates and deletes no Run and its stored status changes in the Ready condition at most, whatever else happens |
| `ScanDecisions.NeverLetThrough` | internal/controller/renovatescan_controller.go:116-147 | a Scan that was never let through has never created a Run |
| `ScanDecisions.ActiveInOrder` | internal/controller/renovatescan_controller.go:256-287 | the active list holds each active Run once, in list order |
| `ScanDecisions.RefreshDecided` | internal/controller/renovatescan_controller.go:250-295 | the refresh sets both times to the latest completion that counts, or leaves them, sets the active Runs, and changes nothing else |
| `ScanDecisions.ListDecides` | internal/controller/renovatescan_controller.go:149-175 | after listing the next run time is the least fire after now and the last run, the Scan is Ready, and it goes on to create iff a fire passed since the last run and concurrency allows it, for the latest such fire; otherwise it is Scheduled |
| `ScanDecisions.CreateDecides` | internal/controller/renovatescan_controller.go:312-352 | what a creation puts into store, with and without a reply, and what the status then records |
| `ScanDecisions.RunsAreSnapshots` | internal/controller/renovatescan_controller.go:334-338 | in every history each Run carries the settings of the spec its creating reconcile had read, the Scan as only owner, and its fire, however the Scan is edited |
| `ScanDecisions.RunsCarrySpec` | internal/controller/renovatescan_controller.go:334-338 | with an unedited spec these are its settings |
| `ScanDecisions.LimitsDecided` | internal/controller/renovatescan_controller.go:377-384 | unset limits are 3 and 1, set ones are taken as they are |
| `ScanDecisions.PruneDecides` | internal/controller/renovatescan_controller.go:355-407 | pruning picks only ended Runs of the Scan; of each class min(count, limit) are kept, none of which completed before one that is picked |
| `ScanDecisions.RecencyIsCompletion` | internal/controller/renovatescan_controller.go:409-414 | recency is always the completion time; the fallback to the creation time is never needed |
| `ScanDecisions.FinishDecides` | internal/controller/renovatescan_controller.go:177-189 | a reconcile that pruned to the end is Scheduled, one that fails on a list or a delete stores what it had, and a delete removes exactly the Run picked unless it is rejected |
| `SchedulerSystem.RunStepMoves` | internal/controller/renovaterun_controller.go:113-148 | a Run reconcile changes only the status of its own Run; a Run that ends carries a completion stamp read since it was last written |
| `SchedulerSystem.AlwaysBase` | internal/controller/renovatescan_controller.go:355-407 | after every history, for Runs of any names: statuses are well formed and whatever is up for deletion is terminal and owned by this Scan |
| `SchedulerSystem.DueMeansNoneActive` | internal/controller/renovatescan_controller.go:170-175 | a Scan that does not allow concurrency goes on to create only if none of its Runs is active |
| `SchedulerSystem.AtMostOneActive` | internal/controller/renovatescan_controller.go:149-190 | in every interleaving with lost writes, crashes and edited specs, a Scan whose policy is never Allow owns at most one non-terminal Run |
| `SchedulerOrder.DueComesLast` | internal/controller/renovatescan_controller.go:149-177 | a fire let through is strictly later than the completion of every Run so far |
| `SchedulerOrder.NewestNotExcess` | internal/controller/renovatescan_controller.go:392-407 | with limits of at least one, pruning never picks the newest Run |
| `SchedulerOrder.AlwaysInv` | internal/controller/renovatescan_controller.go:109-190 | the recorded intervals of all Runs ever created are closed and ordered after every history |
| `SchedulerOrder.IntervalsDisjoint` | internal/controller/renovatescan_controller.go:211-352 | without Allow and with limits of at least one: fire1 <= completion1 < fire2 <= completion2 for any two Runs a Scan ever creates, even if they were deleted since |
| `SchedulerHistory.LastSuccessNeverMovesBack` | internal/controller/renovatescan_controller.go:250-304 | with a success limit of at least one, the stored LastSuccessfulRunTime never moves back between any two points of a history, under any policy and however the rest of the spec changes |
| `SchedulerSuccess.LimitZeroForgets` | internal/controller/renovatescan_controller.go:396-405 | with a success limit of zero it moves back in some history, under any policy: pruning deletes the more recent success and fails on the older one |
| `SchedulerSuccess.NeverForgetsExactlyWhenKept` | internal/controller/renovatescan_controller.go:250-304 | so, for a spec that can fire, it never moves back if and only if the success limit is at least one |
| `SchedulerHistory.LastRefNeverMovesBack` | internal/controller/renovatescan_controller.go:340-352 | under any policy and limits the stored LastRunRef names a Run this Scan created and never goes back to an earlier one |
| `SchedulerHistory.HistoryBounded` | internal/controller/renovatescan_controller.go:177-182 | without Allow, with fixed limits and finished pruning, the Scan owns at most the two limits plus one Runs whenever it is not creating or pruning |
| `SchedulerTraces.LimitZeroRepeats` | internal/controller/renovatescan_controller.go:377-389 | with a history limit of zero for either class, under any policy, some history with a crash runs a fire twice, for every spec that can fire |
| `SchedulerTraces.AllowRepeatsWithoutLoss` | internal/controller/renovatescan_controller.go:288-290 | under Allow, whatever the limits, a fire is run twice in a history where every call of both controllers and every write succeeds and no Job fails |
| `SchedulerTraces.OneLimitZeroRepeatsWithoutLoss` | internal/controller/renovatescan_controller.go:288-290 | so it is under any policy when one limit is zero and the other is not; the failed Run in it found no repository |
| `SchedulerTraces.DefaultsOperational` | api/v1alpha1/renovatescan_types.go:87-122 | the specs these results speak of exist, for every policy and limits |
| `SchedulerExact.NeverRepeatsExactlyWhenStrict` | internal/controller/renovatescan_controller.go:211-407 | no history runs a fire twice if and only if the policy is not Allow and both limits are at least one |
| `SchedulerExact.AlwaysInv` | internal/controller/renovatescan_controller.go:149-190 | with both limits zero and nothing lost, the status always remembers the fire of the newest Run or something later, and fires ascend with creation |
| `SchedulerExact.NeverRepeatsSmoothlyExactlyWhenEven` | internal/controller/renovatescan_controller.go:211-407 | no history in which every call of both controllers and every write succeeds and no Job fails runs a fire twice if and only if the policy is not Allow and the limits are both zero or both not |
| `ScanReconciler.ApiServer.List` | internal/controller/renovatescan_controller.go:251-254 | a listing holds every Run exactly once |
| `ScanReconciler.Reconciler.RefreshActiveRuns` | internal/controller/renovatescan_controller.go:250-295 | the loop leaves the status refreshed as the value model says and changes nothing else |
| `ScanReconciler.Reconciler.CreateRun` | internal/controller/renovatescan_controller.go:312-352 | the Run carries the Scan as owner, the fire and the present spec; reference and time are recorded only if the creation is acknowledged |
| `ScanReconciler.Reconciler.Partition` | internal/controller/renovatescan_controller.go:361-375 | the two lists, sorted, are exactly the Scan's succeeded and failed Runs, most recent first |
| `ScanReconciler.Reconciler.DeleteOldest` | internal/controller/renovatescan_controller.go:392-407 | the deletes are the pruning steps of the transition system, ended by the first failure |
| `ScanReconciler.Reconciler.GcOldRuns` | internal/controller/renovatescan_controller.go:355-390 | pruning is a path of the transition system, ending with nothing left to prune unless a call failed |
| `ScanReconciler.Reconciler.CheckReady` | internal/controller/renovatescan_controller.go:116-147 | the reconcile goes on exactly for an unsuspended Scan with a ready platform and a valid schedule, and otherwise marks why not |
| `ScanReconciler.Reconciler.DecideFire` | internal/controller/renovatescan_controller.go:149-175 | refresh, fire times and decision are the listing step of the transition system |
| `ScanReconciler.Reconciler.RunFire` | internal/controller/renovatescan_controller.go:177-189 | creation and pruning are a path of the transition system up to the status write |
| `ScanReconciler.Reconciler.Reconcile` | internal/controller/renovatescan_controller.go:87-190 | a whole reconcile, for any answers, is a path of the transition system from idle to idle by the steps these answers allow |
| `ScanReconciler.PathIsHistory` | internal/controller/renovatescan_controller.go:87-190 | such a path continues any history that leads to its start, so whatever is proved of all histories holds of a reconcile anywhere in one |

## Left out

- GitHub and Forgejo clients (`internal/platform`): discovery and config probes are arbitrary answers, each a result or a
  transient or permanent error.
- The Platform reconciler and credential parsing: whether a Platform is ready is an input.
- Cron parsing and time zones: only the contract of `Next` is kept. A schedule that never fires again is outside that
  contract; `Cron.WalkEndsExactlyWhen` shows what the loop would then do.
- JSON, gzip and base64 as bytes: a stored shard is its payload with a tag, and its JSON length is computed for ASCII slugs
  without characters that need escaping. A shard without repositories is `null` in JSON and empty in the model.
- Environment, labels, resources and security context of the Job, and its backoff limits: configuration without a
  decision in the controllers. Whether the Scan's configuration parses is an input.
- Removal of Jobs, ConfigMaps and Secrets, by the Job's time-to-live, by owner references or by hand: objects of a Run stay
  in the cluster after the Run is pruned. Deletion of Runs that are not terminal. The branch for a vanished Job is modelled but no step takes a Job away.
- The end of a Job: one that is marked failed may still complete indexes in the model.
- Stale reads: every Get and List sees the present state, as with a cache that is up to date.
- Messages, transition times and observed generations of conditions, and the results that ask for a requeue, except the
  delay computed by `Cron.CapRequeueAfter`.
- Metrics other than the counter of terminal Runs, and its labels other than the result.
- Negative history limits, which the API's validation rejects (`api/v1alpha1/renovatescan_types.go:87-99`).
- The discovery owner taken from the filter: it only feeds the platform client.
- A Scan reconcile in `ScanReconciler` is undisturbed; interleaving with other steps is covered by `SchedulerSystem`, whose steps
  it is made of.
- Sorting in `ScanModel.SortRecent`: on values; the source sorts the slice in place with an unstable sort, and the
  transition system accepts any order among equally recent Runs.
