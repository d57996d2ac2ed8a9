# namespace-cost-governor: a verified model

`namespace-cost-governor` is a Kubernetes operator. Once a minute it meters a namespace's CPU and memory, adds the
usage to a monthly ledger in the status of a `NamespaceBudget`, and, as the budget runs out, scales Deployments to zero.
It promises to give every Deployment its replicas back, to count every hour once, and to leave excluded workloads alone.
This project models the operator, its report generator, its idle detection and the `restore` command, and proves what
of those promises the code keeps, over whole runs and with API calls failing anywhere.

## How the model is laid out

* `Deployments` has a Deployment's labels, replicas and annotations, and JSON merge patches (section 2 of RFC 7386):
  a patch is the difference between a base copy and an edited copy, and the server applies it to whatever it holds.
* `ActionSpec` is the Deployment API as a state machine. A `World` keeps every persisted revision and a script with the
  outcome of each call to come: it succeeds, it is refused, it takes effect but the reply is lost, or (a read) it returns
  an earlier revision, as an informer cache may. A process that dies is a process all of whose later calls are refused.
* `Actions` holds the operations as the program runs them, on a class whose fields they update; each method is proved
  to be the transition of the same name in `ActionSpec`. `Recovery`, `Provenance`, `Suspension` and `Lifecycle` prove
  what those transitions keep.
* `Budgets` is the status of a `NamespaceBudget`; `ReconcileSpec` is one reconcile as a transition of everything
  persisted, and `Reconciler` the reconcile as it runs, proved to be that transition.
* `Guardian` is about runs of the whole system; `Ledger` about the status over runs, through the log of the reconciles that stored
  one; `Books` about reports and ledger together.
* `Outcomes` says what a reconcile achieves when its calls go through, from the cluster, the stored status and the
  notification alone, with names, thresholds and amounts spelled out.
* `Detector`, `Reports`, `Metrics` and `Decimal` hold idle detection, report contents, sums, and decimal text.

Instants are real hours together with a calendar month index and a day. Quantities are reals; what is stored with six
decimals is an integer number of millionths, rounded half to even. One reconcile runs at a time, a namespace has one
budget, and between the two patches of one Deployment nobody else writes it.

## What the proofs found

* Restoring from a stale read can lose the count. If `Restore` or the command reads a Deployment between the two patches
  of a scale-down, and the second patch lands before it writes, its replicas patch is empty: it removes the record and
  leaves zero replicas. `StaleRestore` and `StaleCliRestore` say, for any state reached and any call outcomes, that this
  is the only such case; `RunHonest` allows every other stale read.
* A cleanup that lists a stale revision can miss a mark altogether and let the finalizer go (`StaleCleanupAbandons`).
  `FinalizerExact` says when: exactly if some marked Deployment was not seen marked in the list and again when fetched.
  Scale-down has no such case.
* A half-done scale-down is never finished by one that reads it. docs/design.md:23 says that a later reconcile can
  complete a scale-down that stopped after the annotations; the code skips every Deployment it reads as marked, so with
  current reads it keeps running (`HalfDoneStays`). Only a scale-down that reads a revision from before the mark
  finishes it (`HalfDoneFinished` says exactly when).
* One reconcile can report a workload twice. A suspension lists the Deployments right after step 9 has patched some, with
  the manager's cached client (cmd/main.go:200); a list that still shows one as it was has its name appended again
  (`StaleListReportsTwice`). `AffectedNamesExact` says that the names are distinct exactly if the list shows each
  Deployment just scaled down as one to be spared.
* One reconcile breaks the books exactly if it resets the ledger because it found a report that is already there, or
  hands the ledger to a report without storing the reset (`ReconcileBooks`). Over runs this shows in three ways. A report
  that is created but not filled in still counts as existing, so the next reconcile resets a ledger that no report has.
  A report that is filled in while the reset is not stored on the same first of the month is counted again a month later.
  And if the reset is stored late, after a lookup that failed or lagged let increments be stored in between, those
  increments are in no report and no ledger (`LateReset`). Without a fault between a report and the stored reset none
  of this happens (`BooksConserved`).
* A notification also names idle workloads that were down already: `ScaleDown` succeeds on them without a write
  (`ReconcileEnforces`).
* Exclusion protects from scaling down, not from being restored when the budget is deleted (`DeletionRestoresExcluded`).
* README.md:171 and docs/cost-model.md:61 say that actions are configured and run on transitions. The code never reads
  `spec.actions` and acts on every Exceeded or Suspended reconcile; the model does as the code does. The percentage in
  the status is truncated, not rounded as docs/cost-model.md:45 has it.

## Model

| member | source | states |
|---|---|---|
| Decimal.ParseFormat | internal/actions/scaledown.go:86-98 | every int32 written with `%d` is read back unchanged by the bounded base-10 parse that Restore relies on |
| Decimal.ParseAccepts | internal/actions/scaledown.go:91-94 | the bounded parse accepts digits after an optional sign exactly within 32 bits, and a plus sign changes nothing |
| Decimal.ParseRefuses | internal/actions/scaledown.go:91-94 | it refuses everything else |
| Decimal.ToMicrosNearest | internal/controller/namespacebudget_controller.go:199-203 | a `%.6f` store is off by at most half a millionth |
| Decimal.ToMicrosTie | internal/controller/namespacebudget_controller.go:199-203 | halfway between two millionths the even one is stored |
| Decimal.ToMicrosFromMicros | internal/controller/namespacebudget_controller.go:197-199 | a stored amount survives being read and stored again |
| Deployments.ApplyDiff | internal/actions/scaledown.go:47-56 | a merge patch sent to the object it was computed from yields exactly the edited copy |
| Deployments.ApplyTwice | internal/actions/scaledown.go:56-58 | a patch that was applied although its reply was lost can be applied again |
| Deployments.EmptyDiff | internal/actions/scaledown.go:96-103 | a merge patch is empty exactly when nothing was edited, and then changes no object |
| Exclusions.IsExcluded | internal/idle/detector.go:121-131 | true iff some exclusion has this non-empty name |
| Exclusions.IsLabelExcluded | internal/idle/detector.go:133-148 | true iff some well-formed selector matches; malformed ones are skipped |
| Actions.Cluster.ScaleDown | internal/actions/scaledown.go:22-70 | the two-patch scale-down, call by call, under any outcomes |
| Actions.Cluster.Restore | internal/actions/scaledown.go:72-117 | the two-patch restore, call by call, with its error cases |
| Actions.Cluster.SuspendAll | internal/actions/suspend.go:14-60 | the sweep: who is skipped, failures do not stop it, every attempted name is returned |
| Actions.Cluster.Cleanup | internal/controller/namespacebudget_controller.go:338-365 | restores every marked Deployment and stops at the first error |
| Actions.Cluster.CliRestore | cmd/kubectl-budget/restore.go:34-75 | the command's loop: one patch each, unreadable records skipped, successes counted |
| Actions.Cluster.ScaleIdle | internal/controller/namespacebudget_controller.go:296-307 | step 9: the names reported are those whose scale-down succeeded |
| Recovery.RunConserves | internal/actions/scaledown.go:31-114 | from any cluster, over any run of scale-down, suspension, restore, cleanup and command with up-to-date reads and any faults, every persisted revision gives every Deployment the same effective count |
| Recovery.ScaleDownConserves | internal/actions/scaledown.go:31-67 | scale-down keeps every effective count in every revision it writes |
| Recovery.RestoreConserves | internal/actions/scaledown.go:81-114 | so does restore |
| Recovery.CliRestoreEachConserves | cmd/kubectl-budget/restore.go:42-75 | so does the command's loop, listed once and then patched one by one |
| Provenance.RunHonest | internal/actions/scaledown.go:46-114 | from clean Deployments, over any run with any faults and arbitrarily stale reads, except that nothing is restored from an overtaken copy, every revision has all four annotations or none on each Deployment, the right record, and nothing else touched |
| Provenance.FreshRunAdmissible | internal/actions/scaledown.go:81-114 | runs whose restores, cleanups and commands read the current revision meet that exception |
| Provenance.ScaleDownHonest | internal/actions/scaledown.go:22-70 | scale-down keeps this whichever revisions its reads return |
| Provenance.StaleScaleDown | internal/actions/scaledown.go:46-67 | from any unmarked snapshot of the lifecycle it ends marked at zero with the same record, whatever state the server is in; from a marked one it does nothing |
| Provenance.StaleRestore | internal/actions/scaledown.go:81-114 | in any reachable state, restoring from any snapshot with any calls failing keeps every revision faithful iff not both: the snapshot is a half-done scale-down that has finished since, and both patches land; then the count becomes 0, otherwise it is kept |
| Provenance.StaleCliRestore | cmd/kubectl-budget/restore.go:59-68 | the same for the command's single patch |
| Provenance.StaleRestoreLoses | internal/actions/scaledown.go:96-112 | a concrete loss of three replicas |
| Provenance.ForeignEdit | internal/actions/scaledown.go:41-54 | if somebody else changed the replicas after the read, the snapshot's count is recorded: kept iff the two agree |
| Suspension.SuspendAllSparesExcluded | internal/actions/suspend.go:27-36 | from any cluster, a Deployment that every revision shows excluded by name or well-formed selector is written in no revision of a suspension, whatever fails and however stale the list |
| Suspension.ScaleDownLeavesOthers | internal/actions/scaledown.go:22-70 | a scale-down writes to the Deployment it was given and to no other |
| Suspension.ScaleDownSucceeds | internal/actions/scaledown.go:22-70 | a scale-down reports success iff the copy it reads is marked or at zero, or both its patches are confirmed |
| Suspension.ScaleDownReaches | internal/actions/scaledown.go:59-67 | with current reads a Deployment whose scale-down succeeded was marked before or is at zero |
| Suspension.HalfDoneStays | internal/actions/scaledown.go:31-34 | over any run of scale-downs and suspensions with current reads a marked Deployment is never written, so a half-done scale-down is not finished |
| Suspension.HalfDoneFinished | internal/actions/scaledown.go:31-67 | a scale-down of a half-done Deployment leaves it at zero iff it reads a revision that shows it unmarked and not at zero, and both its patches land |
| Suspension.SuspendAllDone | internal/actions/suspend.go:27-57 | without faults every non-excluded Deployment ends marked or at zero, suspended with its own record, and every excluded one as it was |
| Suspension.SuspendEachOrder | internal/actions/suspend.go:27-57 | the names a suspension reports are in list order, whatever fails |
| Suspension.SuspensionSubsumesIdle | internal/controller/namespacebudget_controller.go:296-316 | step 9 before a suspension gives what the suspension alone gives, up to timestamps |
| Suspension.AffectedNamesDistinct | internal/controller/namespacebudget_controller.go:297-316 | with current reads the names of step 9 and step 10 together hold no duplicate, whatever fails |
| Suspension.AffectedNamesExact | internal/controller/namespacebudget_controller.go:297-316 | with any reads stale they hold no duplicate iff the list of step 10 shows each workload step 9 scaled down as excluded, marked or at zero |
| Suspension.StaleListReportsTwice | internal/actions/suspend.go:27-57 | a concrete run without failures in which a lagging list has one Deployment reported twice |
| Lifecycle.CleanupDone | internal/controller/namespacebudget_controller.go:350-364 | with current reads a successful cleanup has given back every marked Deployment, all four annotations gone and replicas at the record, and touched no other |
| Lifecycle.RoundTrip | internal/actions/scaledown.go:86-114 | with current reads the way there and back changes nothing but unset replicas, which may come back as 1 |
| Lifecycle.RetryEnds | internal/controller/namespacebudget_controller.go:126-128 | with current reads and finitely many faults, one attempt more than faults succeeds iff every record is readable, and then every effective count is restored |
| Lifecycle.UnreadableBlocks | internal/actions/scaledown.go:86-94 | with current reads one unreadable record and no cleanup succeeds, however often it is retried |
| Lifecycle.CleanupMarks | internal/controller/namespacebudget_controller.go:350-364 | after a successful cleanup with any reads stale, a Deployment is marked iff it was marked and was not seen marked both in the list and when fetched |
| Lifecycle.StaleListCleanup | internal/controller/namespacebudget_controller.go:350-358 | with current fetches a successful cleanup leaves no mark iff its list, however old, shows every Deployment marked that is marked by now |
| Lifecycle.CleanupDescends | internal/actions/scaledown.go:96-114 | with current reads every non-empty patch of a cleanup lowers the number of patches still needed (2 while replicas differ from the record, 1 after), which a successful cleanup brings to 0 |
| Lifecycle.CliRestoreDone | cmd/kubectl-budget/restore.go:41-75 | without faults the command gives back and counts every Deployment whose record it can read |
| Lifecycle.CliRestoreCounts | cmd/kubectl-budget/restore.go:41-75 | the command counts exactly the confirmed patches, one for each Deployment listed with a readable record |
| Lifecycle.CliAgreesWithCleanup | cmd/kubectl-budget/restore.go:59-68 | with current reads it reaches the very Deployments the two-patch cleanup reaches whenever that succeeds |
| Metrics.SumValues | internal/metrics/usage.go:44-50 | the sum over all samples |
| Metrics.SumPermutation | internal/metrics/usage.go:44-50 | the order of the samples does not matter |
| Budgets.SetCondition | internal/controller/namespacebudget_controller.go:436-448 | replaces the first condition of the type, keeping its transition time iff the status is the same, or appends |
| Budgets.WithConditionKeeps | internal/controller/namespacebudget_controller.go:436-448 | types stay unique, other types are untouched, the one set is there with its status |
| Budgets.ConditionsDated | internal/controller/namespacebudget_controller.go:391-407 | after any updates there are exactly the two conditions, each dated at the first update of its current unbroken stretch |
| Budgets.PhaseMeaning | internal/controller/namespacebudget_controller.go:210-228 | Warning, Exceeded, Suspended mean that CPU or memory has used 0.8, 1.0, 1.2 of its own positive limit |
| Budgets.PhaseOfMax | internal/controller/namespacebudget_controller.go:225-228 | the phase of the larger dimension is the higher of the two phases |
| Budgets.TruncateThreshold | internal/controller/namespacebudget_controller.go:291 | truncating the percentage does not change any comparison with a positive whole threshold |
| Budgets.ToIdleWorkloadStatus | internal/controller/namespacebudget_controller.go:450-476 | one entry per workload in order, with the time last stored under its key unless absent or zero |
| Budgets.KeyInjective | internal/controller/namespacebudget_controller.go:457 | since a namespace holds no slash, the key tells workloads apart |
| Budgets.IdleStreaks | internal/controller/namespacebudget_controller.go:450-476 | over any detections each listed workload carries the time of the first detection of its unbroken presence |
| Detector.JoinSplit | internal/idle/detector.go:113-119 | joining what was split on hyphens gives the name back |
| Detector.PodOfDeployment | internal/idle/detector.go:113-119 | a pod named after its Deployment, a hash and a suffix leads back to it, hyphens or not |
| Detector.PodToDeploymentOnlyIf | internal/idle/detector.go:113-119 | only such pods do, besides pods of at most one hyphen, which stand for themselves |
| Detector.AverageByPod | internal/idle/detector.go:88-100 | the mean of each pod's samples, for any map iteration order |
| Detector.AggregateByDeployment | internal/report/generator.go:174-187 | the flat mean of each Deployment's samples, for any map iteration order |
| Detector.DetectIdle | internal/idle/detector.go:49-84 | a name is returned exactly once iff some pod stands for it, the mean of its pods' means is below the threshold and its Deployment can be fetched |
| Detector.IsIdleMeans | internal/idle/detector.go:49-71 | idle, spelled out: some pod stands for the Deployment and the mean over its pods of the means of their samples is below the threshold |
| Detector.IdlePermutation | internal/idle/detector.go:49-71 | detection does not depend on the order of the samples |
| Detector.MeansAgree | internal/report/generator.go:174-187 | with equally many samples per pod the mean of means is the report's flat mean |
| Reports.BuildTopConsumers | internal/report/generator.go:189-222 | the five largest workloads, or all if fewer, largest first, none left out larger; each with its name, truncated shares of the totals, and cost at the two prices |
| Reports.TopOfListsLargest | internal/report/generator.go:195-219 | the same for whatever order the sort leaves |
| Reports.AnyOrderReached | internal/report/generator.go:195-198 | every order of ties the unstable sort may leave is what the model's sort makes of some order of the same workloads |
| Reports.TopOfAnyOrder | internal/report/generator.go:195-204 | for any order a descending sort may leave: at most five, largest first, a part of the workloads, and none left out is larger |
| Reports.RanksAgree | internal/report/generator.go:195-198 | any two such orders agree on the core-hours at every rank |
| Reports.SortDescends | internal/report/generator.go:195-198 | the order used is descending |
| Reports.PercentsBounded | internal/report/generator.go:204-219 | in whatever order the sort leaves them, the listed CPU percentages add up to at most 100 when the workloads add up to at most the total |
| Reports.EstimateAdditive | internal/report/generator.go:253-255 | the USD estimate is additive over workloads |
| Reports.CollectSuspensionEvents | internal/report/generator.go:234-248 | one event per Deployment that carries a scaled-down-at annotation, in list order |
| Reports.EventsAreMarked | internal/report/generator.go:234-248 | in every reachable state the events are those of the Deployments the operator has scaled down, in list order, with name, time and reason |
| Reconciler.Reconciler.GenerateReport | internal/report/generator.go:45-124 | lookup, creation and filling of the previous month's report, with every early return |
| Reconciler.Reconciler.FilterIdle | internal/controller/namespacebudget_controller.go:256-280 | the idle workloads not excluded by name or, at a look, by label |
| Reconciler.Reconciler.UpdateStatus | internal/controller/namespacebudget_controller.go:380-425 | conditions and phase set, then stored with a retry on conflict |
| Reconciler.Reconciler.Reconcile | internal/controller/namespacebudget_controller.go:78-328 | the whole reconcile, with every early return |
| Guardian.RunGuarded | internal/controller/namespacebudget_controller.go:119-161 | over any run of reconciles with faults, budget edits, deletion and command-line restores, in which the command and the cleanup of a deleted budget read current revisions and a live budget's reconcile any, a Deployment is marked only while the budget exists and carries the finalizer |
| Guardian.TimelyRunGuarded | internal/controller/namespacebudget_controller.go:119-161 | the same with those reads stale too, as long as nothing is restored from an overtaken copy and a cleanup that lets the finalizer go read every mark; FinalizerExact has the other direction |
| Guardian.FreshTimely | internal/controller/namespacebudget_controller.go:350-358 | one event with current restoring reads meets these two conditions |
| Guardian.GoneMeansRestored | internal/controller/namespacebudget_controller.go:125-139 | in any run from clean Deployments whose restoring reads are current, once the budget is gone or has lost its finalizer every Deployment is as it was originally, unset replicas possibly spelled out |
| Guardian.GoneMeansRestoredTimely | internal/controller/namespacebudget_controller.go:125-139 | the same under the two conditions on stale reads |
| Guardian.FinalizerGoes | internal/controller/namespacebudget_controller.go:120-142 | with every record readable, one reconcile of the deleted budget without a failing call or stale read in its cleanup restores everything and drops the finalizer |
| Guardian.DeletionEnds | internal/controller/namespacebudget_controller.go:120-142 | in any such run in which the budget is deleted and later one reconcile is faultless, however many fail before and after, the finalizer ends up gone for good and every Deployment as it was originally |
| Guardian.FinalizerExact | internal/controller/namespacebudget_controller.go:120-142 | the finalizer goes with every mark taken back iff the cleanup noticed each; with current fetches, iff its list showed each |
| Guardian.StaleCleanupAbandons | internal/controller/namespacebudget_controller.go:350-358 | a cleanup that lists a stale revision can drop the finalizer and leave a Deployment marked at zero |
| Guardian.PersistPrecise | internal/controller/namespacebudget_controller.go:409-424 | an update that lands stores exactly the desired status and keeps spec and finalizers as re-read, every edit since the first read included; the object is marked for deletion iff it was or such an edit marked it |
| Guardian.FilterIdleSound | internal/controller/namespacebudget_controller.go:258-280 | a Deployment that every revision shows excluded by name or label never gets through the filter, however stale its look |
| Guardian.ReportedNamesDistinct | internal/controller/namespacebudget_controller.go:297-319 | with current reads the names one notification lists are distinct |
| Guardian.ReportedNamesExact | internal/controller/namespacebudget_controller.go:297-319 | with any reads stale they are distinct iff no suspension lists a workload just scaled down as one still to suspend |
| Guardian.ReconcileSparesExcluded | internal/controller/namespacebudget_controller.go:258-316 | from any cluster, over a whole reconcile of a live budget a Deployment that every revision shows excluded keeps replicas and annotations exactly, in every revision |
| Guardian.DeletionRestoresExcluded | internal/controller/namespacebudget_controller.go:354-362 | with current reads a marked Deployment is unmarked and given its recorded count by the reconcile that drops the finalizer, even if excluded since |
| Ledger.ReconcileStatus | internal/controller/namespacebudget_controller.go:91-294 | a reconcile either stores the computed status or leaves the status alone, wherever it returns |
| Ledger.LandsMeans | internal/controller/namespacebudget_controller.go:409-424 | a status update lands iff at most three conflicts come before the attempt that settles it and that one does |
| Ledger.RunLinked | internal/controller/namespacebudget_controller.go:290-294 | over any run the stored statuses form a chain, each computed from the one before |
| Ledger.IntervalsTile | internal/controller/namespacebudget_controller.go:184-204 | the integrated intervals tile the time between stored reconciles with no gap or overlap |
| Ledger.RoundingBounded | internal/controller/namespacebudget_controller.go:196-204 | between resets the accumulator is within n half-millionths of the exact integral after n stored reconciles |
| Ledger.EntryLedger | internal/controller/namespacebudget_controller.go:182-204 | in every stored status an amount is that of the last one, or zero after a reset, plus usage times the hours since, rounded to six decimals; bytes divided by 1073741824 |
| Ledger.EntryShows | internal/controller/namespacebudget_controller.go:206-208 | the stored current usage is the cores and GiB found, rounded |
| Ledger.EntrySince | internal/controller/namespacebudget_controller.go:92-114 | the first stored status begins the ledger, and only a reset begins it anew, on the first of a month and for a ledger begun in another |
| Ledger.EntryPhase | internal/controller/namespacebudget_controller.go:210-228 | stored phase and percentage follow from the stored ledger: the larger share of a positive limit, without its fraction for the percentage, and 80, 100 and 120 percent for the phase |
| Ledger.PhaseNeverBack | internal/controller/namespacebudget_controller.go:196-228 | between resets, with the same spec and non-negative usage, accumulators never decrease and the stored phase never moves back |
| Ledger.ConditionsMatchPhase | internal/controller/namespacebudget_controller.go:227-229 | in every stored status UsageWarning is True if the phase is Warning, Exceeded or Suspended and False otherwise, BudgetExceeded True if it is Exceeded or Suspended and False otherwise |
| Ledger.ConditionsOfLog | internal/controller/namespacebudget_controller.go:391-407 | the stored conditions are those of the stored updates of the run |
| Ledger.RunConditionsDated | internal/controller/namespacebudget_controller.go:391-407 | after any run, whatever fails, the stored conditions are the two of the last stored percentage, with status, reason and message, each dated at the first stored status of its unbroken stretch |
| Ledger.IdleOfLog | internal/controller/namespacebudget_controller.go:282-286 | the stored idle list is that of the successful detections of the run |
| Ledger.RunIdleStreaks | internal/controller/namespacebudget_controller.go:282-286 | after any run the stored idle list is that of the last stored detection, each workload dated at the first detection of its unbroken presence |
| Ledger.DetectIdleDetects | internal/idle/detector.go:49-84 | what detection ensures of its result is what the idle list needs: distinct names in a slash-free namespace |
| Ledger.ReconcileSent | internal/controller/namespacebudget_controller.go:317-323 | one reconcile notifies of the phase change it stored iff a webhook is set, the write is confirmed and the process lives; and of nothing else |
| Ledger.NotificationsFollow | internal/controller/namespacebudget_controller.go:290-323 | the notifications of a run are a subsequence of the stored phase changes, and all of them iff a webhook is set and no reconcile that stored one loses the reply or dies in between |
| Books.ReportsWrittenOnce | internal/report/generator.go:52-65 | each month has at most one report, and one that exists is never touched again |
| Books.ReconcileReports | internal/report/generator.go:52-121 | one reconcile creates the due report or none, decided by its inputs, and fills it with the whole ledger, its cost at the two prices, the largest consumers and the events its list call shows, or leaves it empty |
| Books.ReportEvents | internal/report/generator.go:83-119 | over any run a report handed over keeps listing exactly the Deployments marked in what its list call saw, in list order, with the time each was scaled down |
| Books.StoresEntry | internal/controller/namespacebudget_controller.go:93-294 | the inputs that decide whether a reconcile stores its status, and with a reset |
| Books.ResetsReported | internal/controller/namespacebudget_controller.go:104-114 | a stored reset implies that the previous month's report exists |
| Books.ResetsIncrease | internal/controller/namespacebudget_controller.go:99-114 | the months of the stored resets strictly increase |
| Books.ReconcileBooks | internal/controller/namespacebudget_controller.go:106-114 | one reconcile keeps reports plus ledger equal to what was metered iff it neither stores a reset for a report it found nor hands the ledger over without storing the reset, or the ledger is empty; all read off its inputs |
| Books.RunBooks | internal/report/generator.go:73-121 | the books of any run: start, plus stored increments, plus handovers without stored reset, minus resets without handover |
| Books.BooksConserved | internal/controller/namespacebudget_controller.go:93-117 | on a calendar that does not run backwards and from a ledger begun after every existing report's month, if every created report is confirmed and filled and that reconcile's status lands, reports plus ledger equal the start plus all stored increments, whatever else fails |
| Books.LateReset | internal/controller/namespacebudget_controller.go:106-113 | a ledger handed over whose reset is only stored later, by any reconcile of the same first of the month, leaves the books short by exactly what was stored in between: made good iff that is nothing |
| Books.EmptyReportLoses | internal/report/generator.go:103-121 | a report created but not filled in loses five core-hours |
| Books.MissedDayCountsTwice | internal/controller/namespacebudget_controller.go:99-114 | a reset not stored on the first of the month reports five core-hours twice |
| Outcomes.ReconcileEnforces | internal/controller/namespacebudget_controller.go:296-323 | a reconcile of a live budget with a confirmed status write and no fault on Deployments, by the ledger it stores: from 1.2 of a limit every Deployment not excluded is down, from 1.0 exactly the idle ones that are there and not excluded, below none, and all others are untouched; the notification of a phase change carries the stored phase and percentage and the names: each idle one, in the order found, then each other one that was not down, in list order |
| Outcomes.ReconcileListsIdle | internal/controller/namespacebudget_controller.go:256-287 | under pressure the stored idle list names exactly the workloads found that are there and not excluded, in order; otherwise it stays |
| Outcomes.FilterKeeps | internal/controller/namespacebudget_controller.go:258-280 | without faults the filter keeps a workload iff it is there and not excluded, in the order found |
| Outcomes.StoresBeforeActing | internal/controller/namespacebudget_controller.go:290-307 | whatever the calls do, no Deployment is written unless the status write was confirmed and the window parses |
| Outcomes.TouchesOnlyDue | internal/controller/namespacebudget_controller.go:296-316 | whatever the calls do, a Deployment not among the idle ones is untouched below 1.2, and every one below 1.0 |
| Outcomes.FinalizerAdded | internal/controller/namespacebudget_controller.go:144-161 | a live budget without the finalizer gets it, and nothing else changes, iff the update is not refused |
| Outcomes.FinalizerRemoved | internal/controller/namespacebudget_controller.go:120-142 | a deleted budget loses the finalizer, and is gone if it has no other, iff the cleanup succeeds and the update is not refused |
| Outcomes.ReconcileReturns | internal/controller/namespacebudget_controller.go:78-328 | what a reconcile returns, case by case |
| Outcomes.MonthTurns | internal/controller/namespacebudget_controller.go:91-114 | a fresh budget is rolled over: whatever happens after its first stored status, the next reconcile on the first of another month whose calls go through leaves the report of the month before and a ledger begun anew |
| Outcomes.TurnRollsOver | internal/controller/namespacebudget_controller.go:99-114 | the same for any ledger begun in another month |

## Left out

- Floating point: quantities are reals, so NaN, infinities and overflow of the conversion to int are not modelled; the six-decimal store is.
- Time formats and durations: instants carry their month and day, and whether the idle window parses is an input; time zones and the one-second granularity of stored times are not modelled.
- Clock skew inside one reconcile: the report generator's own clock is taken to fall in the same month as the reconcile's first reading.
- Stale reads of the budget and of a status about to be replaced: reads of the budget are current; of Deployments and reports they may be stale.
- BuildTopConsumers: keeps exact estimates where the report has two decimals and a dollar sign, as do a report's totals.
- queryWorkloadUsage: the per-workload usage it hands on is an arbitrary input to a reconcile; its grouping is AggregateByDeployment.
- How a label selector matches: a selector is malformed or an arbitrary predicate on labels.
- Idle detection inside a reconcile: the list it returns is an arbitrary input there, so every result holds for whatever DetectIdle returns; where distinct names matter they are assumed, as DetectIdle ensures.
- Deployments created, deleted or edited by others during a run: the set of Deployments is fixed and only ForeignEdit looks at an edit by somebody else.
- The command and the operator patching the same Deployment at the same time: their operations follow one another.
- ComputeCoreHours, ComputeGiBHours and AverageCPUPercent: nothing in the operator calls them.
- HTTP queries, Slack delivery, leader election, table printing and generated code: plumbing around the logic above, whose results are inputs here.
- The CostReport controller: it does nothing.
