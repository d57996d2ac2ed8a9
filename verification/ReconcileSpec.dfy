/** One reconcile of a NamespaceBudget as a transition of everything that is persisted. Its input says what the clock,
    the metrics server and each call of the API server do. */
module ReconcileSpec {
  import opened Options
  import opened Decimal
  import opened Exclusions
  import opened ActionSpec
  import opened Metrics
  import opened Budgets
  import opened Reports

  /** `period` is the calendar month; totals are the exact ledger amounts, in millionths. */
  datatype ReportStatus = ReportStatus(period: int, core: int, gib: int, usd: real,
                                       consumers: seq<TopConsumer>, events: seq<SuspensionEvent>)
  /** A report is created first and filled in by a second call. */
  datatype Report = Report(status: Option<ReportStatus>)

  datatype Notification = Notification(phase: Phase, percent: int, affected: seq<string>)

  datatype Config = Config(prices: Prices, webhook: bool)

  datatype System = System(budget: Option<Budget>, reports: map<int, Report>, world: World, sent: seq<Notification>)

  /** What another writer did to the budget. */
  datatype Edit = NoEdit | NewSpec(spec: Spec) | MarkDeleted

  /** How the status update goes. An edit between the reads makes no difference to the attempts (Meanwhile); one between
      an attempt's read and its write makes it fail (Conflict). */
  datatype Attempt = Meanwhile(edit: Edit) | ReadFailed | Conflict(edit: Edit) | WriteFailed | Stored | StoredReplyLost

  datatype Tick = Tick(
    readable: bool,                          // the first read of the budget succeeds
    today: Stamp,                            // the clock then
    reportGet: Outcome,                      // looking the report up
    usage: Option<seq<WorkloadUsage>>,       // the month's per-workload usage, if the queries succeed
    create: Outcome,                         // creating the report
    fill: Outcome,                           // writing its status
    finalizers: Outcome,                     // the update that adds or removes the finalizer
    cpu: Option<seq<Sample>>,                // the instant queries
    memory: Option<seq<Sample>>,
    time: real,                              // the clock at accumulation
    idle: Option<seq<IdleWorkload>>,         // what idle detection returns
    written: real,                           // the clock when the conditions are set
    attempts: seq<Attempt>,                  // the status update; Stored once they run out
    crash: bool,                             // the process dies after persisting, before notifying
    order: seq<string>,                      // the order in which Deployments are listed
    clock: Clock,
    script: seq<Outcome>)                    // the calls on Deployments

  datatype Result = Finished | Failed | Requeued | RequeuedAfterMinute

  // ------------------------------------------------------------------ the monthly rollover

  function Opened(st: Status, today: Stamp): Status {
    if st.accumulated.since.Unset? then st.(accumulated := st.accumulated.(since := At(today))) else st
  }

  predicate RollsOver(st: Status, today: Stamp) {
    today.day == 1 && st.accumulated.since.At? && st.accumulated.since.stamp.month != today.month
  }

  function Reset(st: Status, today: Stamp): Status {
    st.(accumulated := Accumulated(Some(0), Some(0), At(today)))
  }

  function ReportContents(acc: Accumulated, month: int, usage: seq<WorkloadUsage>, events: seq<SuspensionEvent>,
                          prices: Prices): ReportStatus {
    var core, gib := FromMicros(acc.core.GetOr(0)), FromMicros(acc.gib.GetOr(0));
    ReportStatus(month, acc.core.GetOr(0), acc.gib.GetOr(0), EstimateUSD(core, gib, prices),
                 TopConsumers(usage, core, gib, prices), events)
  }

  /** The report of the month before `t.today`; it fails if it may not exist with its contents. */
  function Generate(cfg: Config, s: System, acc: Accumulated, t: Tick): (System, bool) {
    var month := t.today.month - 1;
    if t.reportGet.Refused? || t.reportGet.ReplyLost? then (s, false)
    else if t.reportGet.Done? && month in s.reports then (s, true)
    else if t.usage.None? then (s, false)
    else
      var (w, items) := s.world.List(t.order);
      var s1 := s.(world := w);
      if t.create.Refused? || month in s.reports then (s1, false)
      else
        var s2 := s1.(reports := s.reports[month := Report(None)]);
        if t.create.ReplyLost? || t.fill.Refused? then (s2, false)
        else
          var contents := ReportContents(acc, month, t.usage.value, EventsOf(items.GetOr([])), cfg.prices);
          (s2.(reports := s.reports[month := Report(Some(contents))]), !t.fill.ReplyLost?)
  }

  /** The in-memory status after the rollover, which is persisted only if the reconcile gets that far. */
  function RollOver(cfg: Config, s: System, st: Status, t: Tick): (System, Status) {
    var begun := Opened(st, t.today);
    if !RollsOver(begun, t.today) then (s, begun)
    else
      var (s1, ok) := Generate(cfg, s, begun.accumulated, t);
      (s1, if ok then Reset(begun, t.today) else begun)
  }

  // ------------------------------------------------------------------ the finalizer

  function AddFinalizer(s: System, b: Budget, t: Tick): (System, Result) {
    if t.finalizers.Refused? then (s, Failed)
    else
      (s.(budget := Some(b.(finalizers := b.finalizers + {FINALIZER}))),
       if t.finalizers.ReplyLost? then Failed else Requeued)
  }

  /** A deleted object goes once its last finalizer does. */
  function Finalize(s: System, b: Budget, t: Tick): (System, Result) {
    if FINALIZER !in b.finalizers then (s, Finished)
    else
      var (w, ok) := Cleanup(s.world, t.order);
      var s1 := s.(world := w);
      if !ok || t.finalizers.Refused? then (s1, Failed)
      else
        var rest := b.finalizers - {FINALIZER};
        (s1.(budget := if rest == {} then None else Some(b.(finalizers := rest))),
         if t.finalizers.ReplyLost? then Failed else Finished)
  }

  // ------------------------------------------------------------------ the status update

  function Edited(b: Budget, edit: Edit): Budget {
    match edit
    case NoEdit => b
    case NewSpec(spec) => b.(spec := spec)
    case MarkDeleted => b.(deleting := true)
  }

  /** `retry.DefaultBackoff` makes four attempts. */
  const ATTEMPTS: nat := 4

  /** Writes `desired` onto the object as re-read, again after each conflict. */
  function Persist(b: Budget, desired: Status, attempts: seq<Attempt>, left: nat): (Budget, bool)
    decreases |attempts|
  {
    if left == 0 then (b, false)
    else if attempts == [] then (b.(status := desired), true)
    else
      match attempts[0]
      case Meanwhile(edit) => Persist(Edited(b, edit), desired, attempts[1..], left)
      case ReadFailed => (b, false)
      case WriteFailed => (b, false)
      case Stored => (b.(status := desired), true)
      case StoredReplyLost => (b.(status := desired), false)
      case Conflict(edit) => Persist(Edited(b, edit), desired, attempts[1..], left - 1)
  }

  /** Whether the desired status ends up stored. */
  predicate Lands(attempts: seq<Attempt>, left: nat)
    decreases |attempts|
  {
    left > 0 && (attempts == [] || attempts[0].Stored? || attempts[0].StoredReplyLost?
                 || (attempts[0].Meanwhile? && Lands(attempts[1..], left))
                 || (attempts[0].Conflict? && Lands(attempts[1..], left - 1)))
  }

  // ------------------------------------------------------------------ observation and action

  /** The idle workloads that may be acted on: not excluded, by a look at each Deployment. */
  function FilterIdle(w: World, idle: seq<IdleWorkload>, exclusions: seq<Exclusion>): (World, seq<IdleWorkload>)
    decreases |idle|
  {
    if idle == [] then (w, [])
    else if NameExcluded(idle[0].name, exclusions) then FilterIdle(w, idle[1..], exclusions)
    else
      var (w1, got) := w.Get(idle[0].name);
      var (w2, rest) := FilterIdle(w1, idle[1..], exclusions);
      (w2, if got.None? || LabelExcluded(got.value.labels, exclusions) then rest else [idle[0]] + rest)
  }

  function NamesOf(workloads: seq<IdleWorkload>): seq<string> {
    seq(|workloads|, i requires 0 <= i < |workloads| => workloads[i].name)
  }

  predicate Pressed(phase: Phase) {
    phase.Exceeded? || phase.Suspended?
  }

  /** The status computed by a reconcile that gets past the queries, before the idle list and the conditions. */
  function Measured(st: Status, t: Tick): Status
    requires t.cpu.Some? && t.memory.Some?
  {
    Observed(st, t.cpu.value, t.memory.value, t.time)
  }

  /** The idle list and the actionable workloads; None when detection did not run or failed. */
  function Detect(w: World, phase: Phase, spec: Spec, t: Tick): (World, Option<seq<IdleWorkload>>) {
    if !Pressed(phase) || t.idle.None? then (w, None)
    else
      var (w1, actionable) := FilterIdle(w, t.idle.value, spec.exclusions);
      (w1, Some(actionable))
  }

  function WithIdle(st: Status, actionable: Option<seq<IdleWorkload>>): Status {
    if actionable.None? then st else st.(idle := IdleList(actionable.value, st.idle))
  }

  /** Steps 9 and 10. */
  function Act(w: World, phase: Phase, actionable: seq<IdleWorkload>, spec: Spec, t: Tick): (World, seq<string>) {
    var (w1, affected) := if Pressed(phase) then ScaleIdle(w, NamesOf(actionable), t.clock) else (w, []);
    if phase.Suspended? then
      var (w2, names) := SuspendAll(w1, t.order, spec.exclusions, t.clock);
      (w2, affected + names.GetOr([]))
    else (w1, affected)
  }

  /** Everything after the queries. `st` is the in-memory status, `b` the object as read. */
  function Observe(cfg: Config, s: System, b: Budget, st: Status, t: Tick): (System, Result)
    requires t.cpu.Some? && t.memory.Some?
  {
    var measured := Measured(st, t);
    var percent := BudgetPercent(b.spec, measured.accumulated);
    var phase := DeterminePhase(percent);
    if Pressed(phase) && b.spec.window.None? then (s, Failed)
    else
      var (w1, actionable) := Detect(s.world, phase, b.spec, t);
      var desired := Concluded(WithIdle(measured, actionable), phase, Truncate(percent), t.written);
      var (stored, ok) := Persist(b, desired, t.attempts, ATTEMPTS);
      var s1 := s.(budget := Some(stored), world := w1);
      if !ok then (s1, Failed)
      else
        var (w2, affected) := Act(w1, phase, actionable.GetOr([]), b.spec, t);
        var s2 := s1.(world := w2);
        (if b.status.phase != phase && cfg.webhook && !t.crash
         then s2.(sent := s2.sent + [Notification(phase, Truncate(percent), affected)]) else s2,
         RequeuedAfterMinute)
  }

  function Reconcile(cfg: Config, s: System, t: Tick): (System, Result) {
    var s0 := s.(world := s.world.(script := t.script));
    if !t.readable then (s0, Failed)
    else if s.budget.None? then (s0, Finished)
    else
      var b := s.budget.value;
      var (s1, st) := RollOver(cfg, s0, b.status, t);
      if b.deleting then Finalize(s1, b, t)
      else if FINALIZER !in b.finalizers then AddFinalizer(s1, b, t)
      else if t.cpu.None? || t.memory.None? then (s1, RequeuedAfterMinute)
      else Observe(cfg, s1, b, st, t)
  }
}
