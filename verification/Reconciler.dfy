/** The reconciler as it runs, proved to be the transition `ReconcileSpec.Reconcile`. */
module Reconciler {
  import opened Options
  import opened Decimal
  import opened Exclusions
  import opened Metrics
  import opened Budgets
  import opened Reports
  import opened ReconcileSpec
  import opened Actions
  import Model = ReconcileSpec

  class Reconciler {
    const cfg: Config
    const cluster: Cluster
    var budget: Option<Budget>
    var reports: map<int, Report>
    var sent: seq<Notification>

    constructor (cfg: Config, cluster: Cluster, budget: Option<Budget>)
      ensures this.cfg == cfg && this.cluster == cluster
      ensures System() == Model.System.System(budget, map[], cluster.World(), [])
    {
      this.cfg, this.cluster, this.budget := cfg, cluster, budget;
      reports, sent := map[], [];
    }

    function System(): System
      reads this, cluster
    {
      Model.System.System(budget, reports, cluster.World(), sent)
    }

    method BuildContents(acc: Accumulated, month: int, usage: seq<WorkloadUsage>,
                         suspensionEvents: seq<SuspensionEvent>)
      returns (contents: ReportStatus)
      ensures contents == ReportContents(acc, month, usage, suspensionEvents, cfg.prices)
    {
      var totalCoreHours := FromMicros(acc.core.GetOr(0));
      var totalGiBHours := FromMicros(acc.gib.GetOr(0));
      var totalUSD := EstimateUSD(totalCoreHours, totalGiBHours, cfg.prices);
      var topConsumers := BuildTopConsumers(usage, totalCoreHours, totalGiBHours, cfg.prices);
      contents := ReportStatus(month, acc.core.GetOr(0), acc.gib.GetOr(0), totalUSD, topConsumers, suspensionEvents);
    }

    /** The report generator's `Generate`. */
    method GenerateReport(acc: Accumulated, t: Tick) returns (ok: bool)
      modifies this`reports, cluster
      ensures System() == old(Model.Generate(cfg, System(), acc, t).0)
      ensures ok == old(Model.Generate(cfg, System(), acc, t).1)
    {
      var month := t.today.month - 1;
      if t.reportGet.Refused? || t.reportGet.ReplyLost? {
        return false;
      }
      if t.reportGet.Done? && month in reports {
        return true;
      }
      if t.usage.None? {
        return false;
      }
      var suspensionEvents: seq<SuspensionEvent> := [];
      var items := cluster.List(t.order);
      if items.Some? {
        suspensionEvents := CollectSuspensionEvents(items.value);
      }
      var contents := BuildContents(acc, month, t.usage.value, suspensionEvents);

      ok := FileReport(month, contents, t);
    }

    /** Creates the report, then writes its status. */
    method FileReport(month: int, contents: ReportStatus, t: Tick) returns (ok: bool)
      modifies this`reports
      ensures (reports, ok) == old(if t.create.Refused? || month in reports then (reports, false)
                                   else if t.create.ReplyLost? || t.fill.Refused?
                                   then (reports[month := Report(None)], false)
                                   else (reports[month := Report(Some(contents))], !t.fill.ReplyLost?))
    {
      if t.create.Refused? || month in reports {
        return false;
      }
      reports := reports[month := Report(None)];
      if t.create.ReplyLost? {
        return false;
      }

      if t.fill.Refused? {
        return false;
      }
      assert reports[month := Report(Some(contents))] == old(reports)[month := Report(Some(contents))];
      reports := reports[month := Report(Some(contents))];
      return !t.fill.ReplyLost?;
    }

    /** Keeps the idle workloads that are not excluded. */
    method FilterIdle(idle: seq<IdleWorkload>, exclusions: seq<Exclusion>) returns (actionable: seq<IdleWorkload>)
      modifies cluster
      ensures cluster.World() == old(Model.FilterIdle(cluster.World(), idle, exclusions).0)
      ensures actionable == old(Model.FilterIdle(cluster.World(), idle, exclusions).1)
    {
      ghost var whole := Model.FilterIdle(cluster.World(), idle, exclusions);
      actionable := [];
      assert idle[0..] == idle && actionable + whole.1 == whole.1;
      for i := 0 to |idle|
        invariant whole.0 == Model.FilterIdle(cluster.World(), idle[i..], exclusions).0
        invariant whole.1 == actionable + Model.FilterIdle(cluster.World(), idle[i..], exclusions).1
      {
        var w := idle[i];
        assert idle[i..][0] == w && idle[i..][1..] == idle[i + 1..];
        assert forall tail :: actionable + ([w] + tail) == actionable + [w] + tail;
        var named := IsExcluded(w.name, exclusions);
        if named {
          continue;
        }
        var deployment := cluster.Get(w.name);
        if deployment.None? {
          continue;
        }
        var labelled := IsLabelExcluded(deployment.value, exclusions);
        if labelled {
          continue;
        }
        actionable := actionable + [w];
      }
    }

    /** Sets phase and conditions, then stores the status, retrying on conflict. */
    method UpdateStatus(st: Status, phase: Phase, percent: int, t: Tick) returns (ok: bool)
      requires budget.Some?
      modifies this`budget
      ensures budget.Some?
      ensures (budget.value, ok) == old(Persist(budget.value, Concluded(st, phase, percent, t.written), t.attempts,
                                                ATTEMPTS))
    {
      var status := st;
      status := status.(phase := phase);
      status := status.(percent := percent);
      var warning := Condition(USAGE_WARNING, ConditionStatus(percent >= 80), "BudgetThresholdReached",
                               UsageMessage(percent), t.written);
      var conditions := SetCondition(status.conditions, warning);
      var exceeded := Condition(BUDGET_EXCEEDED, ConditionStatus(percent >= 100), "MonthlyBudgetExceeded",
                                UsageMessage(percent), t.written);
      conditions := SetCondition(conditions, exceeded);
      var desiredStatus := status.(conditions := conditions);

      var left, attempts := ATTEMPTS, t.attempts;
      ghost var outcome := Persist(budget.value, desiredStatus, attempts, left);
      while left > 0
        invariant budget.Some? && left >= 0
        invariant outcome == Persist(budget.value, desiredStatus, attempts, left)
        decreases left, |attempts|
      {
        var attempt := Stored;
        if attempts != [] {
          attempt, attempts := attempts[0], attempts[1..];
        }
        match attempt {
          case Meanwhile(edit) =>
            budget := Some(Edited(budget.value, edit));
          case ReadFailed => return false;
          case WriteFailed => return false;
          case Stored =>
            budget := Some(budget.value.(status := desiredStatus));
            return true;
          case StoredReplyLost =>
            budget := Some(budget.value.(status := desiredStatus));
            return false;
          case Conflict(edit) =>
            budget := Some(Edited(budget.value, edit));
            left := left - 1;
        }
      }
      return false;
    }

    /** Step 2: deletion. */
    method Finalize(fetched: Budget, t: Tick) returns (result: Result)
      modifies this`budget, cluster
      ensures System() == old(Model.Finalize(System(), fetched, t).0)
      ensures result == old(Model.Finalize(System(), fetched, t).1)
    {
      if FINALIZER in fetched.finalizers {
        var cleaned := cluster.Cleanup(t.order);
        if !cleaned {
          return Failed;
        }
        if t.finalizers.Refused? {
          return Failed;
        }
        var rest := fetched.finalizers - {FINALIZER};
        budget := if rest == {} then None else Some(fetched.(finalizers := rest));
        if t.finalizers.ReplyLost? {
          return Failed;
        }
      }
      return Finished;
    }

    method Reconcile(t: Tick) returns (result: Result)
      requires cluster.script == t.script
      modifies this`budget, this`reports, this`sent, cluster
      ensures System() == old(Model.Reconcile(cfg, System(), t).0)
      ensures result == old(Model.Reconcile(cfg, System(), t).1)
    {
      // step 1: fetch the budget
      if !t.readable {
        return Failed;
      }
      if budget.None? {
        return Finished;
      }
      var fetched := budget.value;
      var status := fetched.status;
      if status.accumulated.since.Unset? {
        status := status.(accumulated := status.accumulated.(since := At(t.today)));
      }
      if t.today.day == 1 && status.accumulated.since.At? {
        if status.accumulated.since.stamp.month != t.today.month {
          var generated := GenerateReport(status.accumulated, t);
          if generated {
            status := status.(accumulated := Accumulated(Some(0), Some(0), At(t.today)));
          }
        }
      }
      var previousPhase := fetched.status.phase;

      // step 2: deletion
      if fetched.deleting {
        result := Finalize(fetched, t);
        return;
      }

      // step 3: finalizer
      if FINALIZER !in fetched.finalizers {
        if t.finalizers.Refused? {
          return Failed;
        }
        budget := Some(fetched.(finalizers := fetched.finalizers + {FINALIZER}));
        return if t.finalizers.ReplyLost? then Failed else Requeued;
      }

      // step 4: query usage
      if t.cpu.None? {
        return RequeuedAfterMinute;
      }
      if t.memory.None? {
        return RequeuedAfterMinute;
      }
      result := Enforce(fetched, status, previousPhase, t);
    }

    /** Reads a stored total, adds to it and formats it again. */
    method Add(stored: Option<int>, rate: real, elapsedHours: real) returns (total: Option<int>)
      ensures total == Budgets.Accumulate(stored, rate, elapsedHours)
    {
      var prev := FromMicros(stored.GetOr(0));
      prev := prev + rate * elapsedHours;
      total := Some(ToMicros(prev));
    }

    /** Step 5: accumulate. */
    method Accumulate(st: Status, t: Tick) returns (status: Status)
      requires t.cpu.Some? && t.memory.Some?
      ensures status == Measured(st, t)
    {
      status := st;
      var lastReconcile := status.lastReconcile.GetOr(t.time);
      var elapsedHours := t.time - lastReconcile;
      var currentCPUCores := SumValues(t.cpu.value);
      var currentMemBytes := SumValues(t.memory.value);
      var currentMemGiB := currentMemBytes / BYTES_PER_GIB;
      assert currentMemGiB == GiB(t.memory.value) && elapsedHours == Elapsed(st.lastReconcile, t.time);
      var coreHours := Add(status.accumulated.core, currentCPUCores, elapsedHours);
      var gibHours := Add(status.accumulated.gib, currentMemGiB, elapsedHours);
      status := status.(accumulated := status.accumulated.(core := coreHours, gib := gibHours));
      status := status.(lastReconcile := Some(t.time));
      status := status.(cpu := ToMicros(currentCPUCores), memory := ToMicros(currentMemGiB));
    }

    /** Step 7: the actionable idle workloads and the status that lists them. */
    method DetectActionable(st: Status, phase: Phase, spec: Budgets.Spec, t: Tick)
      returns (actionable: Option<seq<IdleWorkload>>, status: Status)
      modifies cluster
      ensures cluster.World() == old(Model.Detect(cluster.World(), phase, spec, t).0)
      ensures actionable == old(Model.Detect(cluster.World(), phase, spec, t).1)
      ensures status == WithIdle(st, actionable)
    {
      actionable, status := None, st;
      if phase == Exceeded || phase == Suspended {
        if t.idle.Some? {
          var kept := FilterIdle(t.idle.value, spec.exclusions);
          var idle := ToIdleWorkloadStatus(kept, status.idle);
          actionable, status := Some(kept), status.(idle := idle);
        }
      }
    }

    /** Steps 9 and 10: act. */
    method Act(phase: Phase, actionable: seq<IdleWorkload>, spec: Budgets.Spec, t: Tick)
        returns (affectedNames: seq<string>)
      modifies cluster
      ensures cluster.World() == old(Model.Act(cluster.World(), phase, actionable, spec, t).0)
      ensures affectedNames == old(Model.Act(cluster.World(), phase, actionable, spec, t).1)
    {
      affectedNames := [];
      if phase == Exceeded || phase == Suspended {
        affectedNames := cluster.ScaleIdle(NamesOf(actionable), t.clock);
      }
      if phase == Suspended {
        var suspendedNames := cluster.SuspendAll(t.order, spec.exclusions, t.clock);
        affectedNames := affectedNames + suspendedNames.GetOr([]);
      }
    }

    /** Steps 5 to 11. */
    method Enforce(fetched: Budget, st: Status, previousPhase: Phase, t: Tick) returns (result: Result)
      requires t.cpu.Some? && t.memory.Some?
      requires budget == Some(fetched) && previousPhase == fetched.status.phase
      modifies this`budget, this`sent, cluster
      ensures System() == old(Model.Observe(cfg, System(), fetched, st, t).0)
      ensures result == old(Model.Observe(cfg, System(), fetched, st, t).1)
    {
      var status := Accumulate(st, t);

      // step 6: percentage and phase
      var budgetPercent := BudgetPercent(fetched.spec, status.accumulated);
      var phase := DeterminePhase(budgetPercent);
      var phaseChanged := previousPhase != phase;

      if (phase == Exceeded || phase == Suspended) && fetched.spec.window.None? {
        return Failed;
      }
      var actionable;
      actionable, status := DetectActionable(status, phase, fetched.spec, t);

      // step 8: persist
      var stored := UpdateStatus(status, phase, Truncate(budgetPercent), t);
      if !stored {
        return Failed;
      }

      var affectedNames := Act(phase, actionable.GetOr([]), fetched.spec, t);

      // step 11: notify
      if phaseChanged && cfg.webhook && !t.crash {
        sent := sent + [Notification(phase, Truncate(budgetPercent), affectedNames)];
      }
      return RequeuedAfterMinute;
    }
  }
}
