/** The status over runs. Of all reconciles only those that store a status leave a trace in it; their log is linked
    entry to entry, and everything below is about such logs. */
module Ledger {
  import opened Options
  import opened Decimal
  import opened ActionSpec
  import opened Recovery
  import opened Metrics
  import opened Budgets
  import opened Detector
  import opened ReconcileSpec
  import opened Guardian

  /** A reconcile that stored its status: from what to what, and what decided it. */
  datatype Entry = Entry(before: Status, after: Status, spec: Spec, reset: bool, listed: Option<seq<IdleWorkload>>,
                         tick: Tick)

  predicate Measurable(t: Tick) {
    t.cpu.Some? && t.memory.Some?
  }

  function Rolled(e: Entry): Status {
    var begun := Opened(e.before, e.tick.today);
    if e.reset then Reset(begun, e.tick.today) else begun
  }

  function PercentOf(e: Entry): real
    requires Measurable(e.tick)
  {
    BudgetPercent(e.spec, Measured(Rolled(e), e.tick).accumulated)
  }

  /** The status stored is the one the reconcile computes, and the ledger was reset only when a rollover was due. */
  predicate Genuine(e: Entry) {
    && Measurable(e.tick)
    && e.after == Concluded(WithIdle(Measured(Rolled(e), e.tick), e.listed), DeterminePhase(PercentOf(e)),
                            Truncate(PercentOf(e)), e.tick.written)
    && (e.reset ==> RollsOver(Opened(e.before, e.tick.today), e.tick.today))
  }

  predicate AllGenuine(log: seq<Entry>) {
    forall i :: 0 <= i < |log| ==> Genuine(log[i])
  }

  lemma AfterFields(e: Entry)
    requires Genuine(e)
    ensures e.after.phase == DeterminePhase(PercentOf(e))
    ensures e.after.percent == Truncate(PercentOf(e))
    ensures e.after.conditions == WithConditions(e.before.conditions, Truncate(PercentOf(e)), e.tick.written)
    ensures e.after.idle == if e.listed.Some? then IdleList(e.listed.value, e.before.idle) else e.before.idle
    ensures e.after.lastReconcile == Some(e.tick.time)
    ensures e.after.accumulated == Measured(Rolled(e), e.tick).accumulated
  {
  }

  /** The entry a reconcile makes, if its status lands. */
  function EntryOf(cfg: Config, s: System, t: Tick): Option<Entry> {
    var s0 := s.(world := s.world.(script := t.script));
    if !t.readable || s.budget.None? || s.budget.value.deleting || FINALIZER !in s.budget.value.finalizers
       || !Measurable(t) || !Lands(t.attempts, ATTEMPTS) then None
    else
      var b := s.budget.value;
      var (s1, st) := RollOver(cfg, s0, b.status, t);
      var percent := BudgetPercent(b.spec, Measured(st, t).accumulated);
      var phase := DeterminePhase(percent);
      if Pressed(phase) && b.spec.window.None? then None
      else
        var listed := Detect(s1.world, phase, b.spec, t).1;
        var desired := Concluded(WithIdle(Measured(st, t), listed), phase, Truncate(percent), t.written);
        Some(Entry(b.status, desired, b.spec, Resets(cfg, s, t), listed, t))
  }

  lemma EntryGenuine(cfg: Config, s: System, t: Tick)
    requires EntryOf(cfg, s, t).Some?
    ensures var e := EntryOf(cfg, s, t).value;
            && Genuine(e) && e.tick == t && e.before == s.budget.value.status && e.spec == s.budget.value.spec
            && e.reset == Resets(cfg, s, t)
  {
    var s0 := s.(world := s.world.(script := t.script));
    var (s1, st) := RollOver(cfg, s0, s.budget.value.status, t);
    var e := EntryOf(cfg, s, t).value;
    assert Rolled(e) == st;
  }

  /** The rollover is due and its report is there. */
  predicate Resets(cfg: Config, s: System, t: Tick)
    requires s.budget.Some?
  {
    var begun := Opened(s.budget.value.status, t.today);
    RollsOver(begun, t.today) && Generate(cfg, s.(world := s.world.(script := t.script)), begun.accumulated, t).1
  }

  function StatusOf(s: System): Option<Status> {
    if s.budget.None? then None else Some(s.budget.value.status)
  }

  /** Whatever goes wrong in it, a reconcile either stores the entry's status or leaves the status alone. */
  lemma ReconcileStatus(cfg: Config, s: System, t: Tick)
    requires s.budget.Some? && Reconcile(cfg, s, t).0.budget.Some?
    ensures var entry := EntryOf(cfg, s, t);
            match entry
            case None => StatusOf(Reconcile(cfg, s, t).0) == StatusOf(s)
            case Some(e) => Some(e.before) == StatusOf(s) && StatusOf(Reconcile(cfg, s, t).0) == Some(e.after)
  {
    var s0, b := s.(world := s.world.(script := t.script)), s.budget.value;
    RollOverBudget(cfg, s0, b.status, t);
    var (s1, st) := RollOver(cfg, s0, b.status, t);
    if t.readable && !b.deleting && FINALIZER in b.finalizers && Measurable(t) {
      ObserveStatus(cfg, s1, b, st, t);
    }
  }

  lemma ObserveStatus(cfg: Config, s: System, b: Budget, st: Status, t: Tick)
    requires Measurable(t) && s.budget == Some(b)
    ensures var percent := BudgetPercent(b.spec, Measured(st, t).accumulated);
            var phase := DeterminePhase(percent);
            var listed := Detect(s.world, phase, b.spec, t).1;
            var desired := Concluded(WithIdle(Measured(st, t), listed), phase, Truncate(percent), t.written);
            StatusOf(Observe(cfg, s, b, st, t).0)
              == Some(if (Pressed(phase) && b.spec.window.None?) || !Lands(t.attempts, ATTEMPTS)
                      then b.status else desired)
  {
    var percent := BudgetPercent(b.spec, Measured(st, t).accumulated);
    var phase := DeterminePhase(percent);
    var desired := Concluded(WithIdle(Measured(st, t), Detect(s.world, phase, b.spec, t).1), phase,
                             Truncate(percent), t.written);
    PersistKeeps(b, desired, t.attempts, ATTEMPTS);
  }

  // ------------------------------------------------------------------ logs

  /** The entries of a run, oldest first. */
  function Log(cfg: Config, s: System, events: seq<Event>): seq<Entry>
    decreases |events|
  {
    if events == [] then []
    else
      var here := EntryAt(cfg, s, events[0]);
      (if here.Some? then [here.value] else []) + Log(cfg, Advance(cfg, s, events[0]), events[1..])
  }

  function EntryAt(cfg: Config, s: System, e: Event): Option<Entry> {
    if e.Reconciled? then EntryOf(cfg, s, e.tick) else None
  }

  /** The log leads from one status to another, each entry starting from what the one before it stored. */
  predicate Linked(st: Status, log: seq<Entry>, st': Status)
    decreases |log|
  {
    if log == [] then st' == st
    else log[0].before == st && Linked(log[0].after, log[1..], st')
  }

  lemma {:induction false} GoneStaysGone(cfg: Config, s: System, events: seq<Event>)
    requires s.budget.None?
    ensures RunOf(cfg, s, events).budget.None?
    decreases |events|
  {
    if events != [] {
      GoneStaysGone(cfg, Advance(cfg, s, events[0]), events[1..]);
    }
  }

  lemma {:induction false} LogGenuine(cfg: Config, s: System, events: seq<Event>)
    ensures AllGenuine(Log(cfg, s, events))
    decreases |events|
  {
    if events != [] {
      LogGenuine(cfg, Advance(cfg, s, events[0]), events[1..]);
      var here := EntryAt(cfg, s, events[0]);
      if here.Some? {
        EntryGenuine(cfg, s, events[0].tick);
      }
    }
  }

  /** However many reconciles return early, fail to store, or are edited around: as long as the budget is there,
      the log accounts for its status. */
  lemma {:induction false} RunLinked(cfg: Config, s: System, events: seq<Event>)
    requires s.budget.Some? && RunOf(cfg, s, events).budget.Some?
    ensures Linked(s.budget.value.status, Log(cfg, s, events), RunOf(cfg, s, events).budget.value.status)
    ensures AllGenuine(Log(cfg, s, events))
    decreases |events|
  {
    LogGenuine(cfg, s, events);
    if events != [] {
      var s1 := Advance(cfg, s, events[0]);
      if s1.budget.None? {
        GoneStaysGone(cfg, s1, events[1..]);
      }
      RunLinked(cfg, s1, events[1..]);
      EventStatus(cfg, s, events[0]);
      var rest, here := Log(cfg, s1, events[1..]), EntryAt(cfg, s, events[0]);
      assert Log(cfg, s, events) == if here.Some? then [here.value] + rest else rest;
    }
  }

  /** Only a stored reconcile changes the status. */
  lemma EventStatus(cfg: Config, s: System, e: Event)
    requires s.budget.Some? && Advance(cfg, s, e).budget.Some?
    ensures match EntryAt(cfg, s, e)
            case None => StatusOf(Advance(cfg, s, e)) == StatusOf(s)
            case Some(entry) => Some(entry.before) == StatusOf(s) && StatusOf(Advance(cfg, s, e)) == Some(entry.after)
  {
    if e.Reconciled? {
      ReconcileStatus(cfg, s, e.tick);
    }
  }

  lemma {:induction false} LinkedLast(st: Status, log: seq<Entry>, st': Status)
    requires Linked(st, log, st') && log != []
    ensures var e := log[|log| - 1];
            Linked(st, log[..|log| - 1], e.before) && st' == e.after
    decreases |log|
  {
    if |log| > 1 {
      LinkedLast(log[0].after, log[1..], st');
      assert log[1..][..|log| - 2] == log[..|log| - 1][1..];
    }
  }

  // ------------------------------------------------------------------ integration

  function From(e: Entry): real {
    e.before.lastReconcile.GetOr(e.tick.time)
  }

  function To(e: Entry): real {
    e.tick.time
  }

  /** The integrated intervals tile the time from the first to the last stored reconcile: each begins where the one
      before it ended, the last ends at the stored time, and their lengths add up. */
  lemma IntervalsTile(st: Status, log: seq<Entry>, st': Status)
    requires Linked(st, log, st') && AllGenuine(log) && log != []
    ensures From(log[0]) == st.lastReconcile.GetOr(log[0].tick.time)
    ensures forall i :: 0 < i < |log| ==> From(log[i]) == To(log[i - 1])
    ensures st'.lastReconcile == Some(To(log[|log| - 1]))
    ensures TotalElapsed(log) == To(log[|log| - 1]) - From(log[0])
  {
    forall i | 0 <= i < |log| ensures log[i].after.lastReconcile == Some(To(log[i])) {
      AfterFields(log[i]);
    }
    StampedTile(st, log, st');
  }

  lemma {:induction false} StampedTile(st: Status, log: seq<Entry>, st': Status)
    requires Linked(st, log, st') && log != []
    requires forall i :: 0 <= i < |log| ==> log[i].after.lastReconcile == Some(To(log[i]))
    ensures From(log[0]) == st.lastReconcile.GetOr(log[0].tick.time)
    ensures forall i :: 0 < i < |log| ==> From(log[i]) == To(log[i - 1])
    ensures st'.lastReconcile == Some(To(log[|log| - 1]))
    ensures TotalElapsed(log) == To(log[|log| - 1]) - From(log[0])
    decreases |log|
  {
    if |log| > 1 {
      StampedTile(log[0].after, log[1..], st');
      assert forall i :: 0 < i < |log| ==> log[i] == log[1..][i - 1];
      assert From(log[1]) == To(log[0]);
    } else {
      assert log[1..] == [];
    }
  }

  function TotalElapsed(log: seq<Entry>): real {
    if log == [] then 0.0 else Elapsed(log[0].before.lastReconcile, log[0].tick.time) + TotalElapsed(log[1..])
  }

  datatype Resource = Cpu | Memory

  function MicrosOf(acc: Accumulated, dim: Resource): int {
    (if dim.Cpu? then acc.core else acc.gib).GetOr(0)
  }

  function Rate(t: Tick, dim: Resource): real
    requires Measurable(t)
  {
    if dim.Cpu? then Sum(Values(t.cpu.value)) else GiB(t.memory.value)
  }

  predicate NoReset(log: seq<Entry>) {
    forall i :: 0 <= i < |log| ==> !log[i].reset
  }

  /** Usage times interval, summed exactly. */
  function ExactUsage(log: seq<Entry>, dim: Resource): real
    requires AllGenuine(log)
  {
    if log == [] then 0.0
    else EntryUsage(log[0], dim) + ExactUsage(log[1..], dim)
  }

  function EntryUsage(e: Entry, dim: Resource): real
    requires Measurable(e.tick)
  {
    Rate(e.tick, dim) * Elapsed(e.before.lastReconcile, e.tick.time)
  }

  lemma AccumulatedAfter(e: Entry, dim: Resource)
    requires Genuine(e)
    ensures MicrosOf(e.after.accumulated, dim)
         == Accumulate(Some(MicrosOf(Rolled(e).accumulated, dim)), Rate(e.tick, dim),
                       Elapsed(e.before.lastReconcile, e.tick.time)).value
  {
    var st, t := Rolled(e), e.tick;
    var measured := Measured(st, t);
    AfterFields(e);
    assert st.lastReconcile == e.before.lastReconcile;
    var elapsed := Elapsed(st.lastReconcile, t.time);
    if dim.Cpu? {
      assert measured.accumulated.core == Accumulate(st.accumulated.core, Rate(t, dim), elapsed);
      AccumulateDefault(st.accumulated.core, Rate(t, dim), elapsed);
    } else {
      assert measured.accumulated.gib == Accumulate(st.accumulated.gib, Rate(t, dim), elapsed);
      AccumulateDefault(st.accumulated.gib, Rate(t, dim), elapsed);
    }
  }

  /** Unreadable text counts as zero. */
  lemma AccumulateDefault(stored: Option<int>, rate: real, elapsed: real)
    ensures Accumulate(stored, rate, elapsed) == Accumulate(Some(stored.GetOr(0)), rate, elapsed)
  {
  }

  lemma AccumulateNearest(stored: int, rate: real, elapsed: real)
    ensures var drift := FromMicros(Accumulate(Some(stored), rate, elapsed).value)
                         - FromMicros(stored) - rate * elapsed;
            -0.0000005 <= drift <= 0.0000005
  {
    ToMicrosNearest(FromMicros(stored) + rate * elapsed);
  }

  lemma AccumulateGrows(stored: int, rate: real, elapsed: real)
    requires rate >= 0.0 && elapsed >= 0.0
    ensures stored <= Accumulate(Some(stored), rate, elapsed).value
  {
    assert rate * elapsed >= 0.0;
    ToMicrosFromMicros(stored);
    ToMicrosMonotone(FromMicros(stored), FromMicros(stored) + rate * elapsed);
  }

  /** One stored step is off its exact value by at most half a millionth. */
  predicate Near(before: int, after: int, usage: real) {
    -0.0000005 <= FromMicros(after) - FromMicros(before) - usage <= 0.0000005
  }

  lemma EntryDrift(e: Entry, dim: Resource)
    requires Genuine(e) && !e.reset
    ensures Near(MicrosOf(e.before.accumulated, dim), MicrosOf(e.after.accumulated, dim), EntryUsage(e, dim))
  {
    StoredAfter(e, dim);
    DriftOf(e, dim);
  }

  lemma DriftOf(e: Entry, dim: Resource)
    requires Measurable(e.tick)
    requires MicrosOf(e.after.accumulated, dim)
          == Accumulate(Some(MicrosOf(e.before.accumulated, dim)), Rate(e.tick, dim),
                        Elapsed(e.before.lastReconcile, e.tick.time)).value
    ensures Near(MicrosOf(e.before.accumulated, dim), MicrosOf(e.after.accumulated, dim), EntryUsage(e, dim))
  {
    AccumulateNearest(MicrosOf(e.before.accumulated, dim), Rate(e.tick, dim),
                      Elapsed(e.before.lastReconcile, e.tick.time));
  }

  lemma StoredAfter(e: Entry, dim: Resource)
    requires Genuine(e) && !e.reset
    ensures MicrosOf(e.after.accumulated, dim)
         == Accumulate(Some(MicrosOf(e.before.accumulated, dim)), Rate(e.tick, dim),
                       Elapsed(e.before.lastReconcile, e.tick.time)).value
  {
    assert MicrosOf(Rolled(e).accumulated, dim) == MicrosOf(e.before.accumulated, dim);
    AccumulatedAfter(e, dim);
  }

  /** Within a month, after n stored reconciles the accumulator is within n half-millionths of the exact integral. */
  lemma {:induction false} RoundingBounded(st: Status, log: seq<Entry>, st': Status, dim: Resource)
    requires Linked(st, log, st') && NoReset(log) && AllGenuine(log)
    ensures var drift := FromMicros(MicrosOf(st'.accumulated, dim))
                         - FromMicros(MicrosOf(st.accumulated, dim)) - ExactUsage(log, dim);
            -0.0000005 * |log| as real <= drift <= 0.0000005 * |log| as real
    decreases |log|
  {
    if log != [] {
      EntryDrift(log[0], dim);
      RoundingBounded(log[0].after, log[1..], st', dim);
    }
  }

  // ------------------------------------------------------------------ phase

  /** Non-negative usage over a non-decreasing clock. */
  predicate Growing(e: Entry) {
    && Genuine(e)
    && (forall i :: 0 <= i < |e.tick.cpu.value| ==> e.tick.cpu.value[i].value >= 0.0)
    && (forall i :: 0 <= i < |e.tick.memory.value| ==> e.tick.memory.value[i].value >= 0.0)
    && Elapsed(e.before.lastReconcile, e.tick.time) >= 0.0
  }

  lemma NeverShrinks(e: Entry, dim: Resource)
    requires Growing(e) && !e.reset
    ensures MicrosOf(e.before.accumulated, dim) <= MicrosOf(e.after.accumulated, dim)
  {
    AccumulatedAfter(e, dim);
    RateNonNegative(e, dim);
    AccumulateGrows(MicrosOf(e.before.accumulated, dim), Rate(e.tick, dim),
                    Elapsed(e.before.lastReconcile, e.tick.time));
  }

  lemma RateNonNegative(e: Entry, dim: Resource)
    requires Growing(e)
    ensures Rate(e.tick, dim) >= 0.0
  {
    SumNonNegative(Values(e.tick.cpu.value));
    SumNonNegative(Values(e.tick.memory.value));
  }

  lemma DimensionMonotone(a: Option<int>, b: Option<int>, limit: Option<real>)
    requires a.GetOr(0) <= b.GetOr(0)
    ensures Percentage(a, limit) <= Percentage(b, limit)
  {
    if limit.GetOr(0.0) > 0.0 {
      assert FromMicros(a.GetOr(0)) <= FromMicros(b.GetOr(0));
      DivideMonotone(FromMicros(a.GetOr(0)), FromMicros(b.GetOr(0)), limit.value);
    }
  }

  lemma DivideMonotone(x: real, y: real, k: real)
    requires x <= y && k > 0.0
    ensures x / k <= y / k
  {
    assert y / k - x / k == (y - x) / k;
  }

  /** Between resets, with the spec unchanged, the accumulators never decrease despite the rounding, and the stored
      phase never moves back. */
  lemma {:induction false} PhaseNeverBack(st: Status, log: seq<Entry>, st': Status, spec: Spec)
    requires Linked(st, log, st') && NoReset(log)
    requires forall i :: 0 <= i < |log| ==> Growing(log[i]) && log[i].spec == spec
    requires st.phase == NoPhase || st.phase == DeterminePhase(BudgetPercent(spec, st.accumulated))
    ensures forall dim :: MicrosOf(st.accumulated, dim) <= MicrosOf(st'.accumulated, dim)
    ensures Rank(st.phase) <= Rank(st'.phase)
    decreases |log|
  {
    if log != [] {
      var e := log[0];
      forall dim ensures MicrosOf(st.accumulated, dim) <= MicrosOf(e.after.accumulated, dim) {
        NeverShrinks(e, dim);
      }
      PhaseStep(e);
      PhaseNeverBack(e.after, log[1..], st', spec);
    }
  }

  lemma PhaseStep(e: Entry)
    requires Growing(e) && !e.reset
    requires e.before.phase == NoPhase || e.before.phase == DeterminePhase(BudgetPercent(e.spec, e.before.accumulated))
    ensures Rank(e.before.phase) <= Rank(e.after.phase)
    ensures e.after.phase == DeterminePhase(BudgetPercent(e.spec, e.after.accumulated))
  {
    var a, b := e.before.accumulated, e.after.accumulated;
    NeverShrinks(e, Cpu);
    NeverShrinks(e, Memory);
    DimensionMonotone(a.core, b.core, e.spec.cpu);
    DimensionMonotone(a.gib, b.gib, e.spec.memory);
    assert BudgetPercent(e.spec, a) <= BudgetPercent(e.spec, b);
    PhaseMonotone(BudgetPercent(e.spec, a), BudgetPercent(e.spec, b));
  }

  lemma ConditionsAgree(conditions: seq<Condition>, percent: real, time: real)
    requires UniqueKinds(conditions)
    ensures var updated := WithConditions(conditions, Truncate(percent), time);
            && UniqueKinds(updated)
            && (forall c :: c in updated && c.kind == USAGE_WARNING ==> c.status == ConditionStatus(percent >= 80.0))
            && (forall c :: c in updated && c.kind == BUDGET_EXCEEDED ==> c.status == ConditionStatus(percent >= 100.0))
            && (exists c :: c in updated && c.kind == USAGE_WARNING)
            && (exists c :: c in updated && c.kind == BUDGET_EXCEEDED)
  {
    TruncateThreshold(percent, 80);
    TruncateThreshold(percent, 100);
    assert USAGE_WARNING[0] != BUDGET_EXCEEDED[0];
    var warned := WithCondition(conditions, Warned(Truncate(percent), time));
    WithConditionKeeps(conditions, Warned(Truncate(percent), time));
    WithConditionKeeps(warned, Exceeding(Truncate(percent), time));
    var c :| c in warned && c.kind == USAGE_WARNING;
    assert c in WithConditions(conditions, Truncate(percent), time);
  }

  /** In every stored status the conditions agree with the phase, though they look at the truncated percentage:
      UsageWarning is true from Warning on, BudgetExceeded from Exceeded on, and otherwise false. */
  lemma ConditionsMatchPhase(e: Entry)
    requires Genuine(e) && UniqueKinds(e.before.conditions)
    ensures var st := e.after;
            && UniqueKinds(st.conditions)
            && (forall c :: c in st.conditions && c.kind == "UsageWarning" ==>
                  c.status == if st.phase == Warning || st.phase == Exceeded || st.phase == Suspended
                              then True else False)
            && (forall c :: c in st.conditions && c.kind == "BudgetExceeded" ==>
                  c.status == if st.phase == Exceeded || st.phase == Suspended then True else False)
            && (exists c :: c in st.conditions && c.kind == "UsageWarning")
            && (exists c :: c in st.conditions && c.kind == "BudgetExceeded")
  {
    AfterFields(e);
    ConditionsAgree(e.before.conditions, PercentOf(e), e.tick.written);
    PhaseThresholds(PercentOf(e));
  }

  lemma PhaseThresholds(percent: real)
    ensures var phase := DeterminePhase(percent);
            && (phase == Warning || phase == Exceeded || phase == Suspended <==> percent >= 80.0)
            && (phase == Exceeded || phase == Suspended <==> percent >= 100.0)
  {}

  // ------------------------------------------------------------------ conditions and idle list over a run

  function UpdateOf(e: Entry): Update
    requires Measurable(e.tick)
  {
    Update(Truncate(PercentOf(e)), e.tick.written)
  }

  predicate AllMeasurable(log: seq<Entry>) {
    forall i :: 0 <= i < |log| ==> Measurable(log[i].tick)
  }

  function Updates(log: seq<Entry>): seq<Update>
    requires AllMeasurable(log)
  {
    seq(|log|, i requires 0 <= i < |log| => UpdateOf(log[i]))
  }

  lemma UpdatesLast(log: seq<Entry>)
    requires log != [] && AllMeasurable(log)
    ensures Updates(log) == Updates(log[..|log| - 1]) + [UpdateOf(log[|log| - 1])]
  {
  }

  lemma ConditionsLast(before: seq<Update>, last: Update)
    ensures Conditions(before + [last]) == WithConditions(Conditions(before), last.percent, last.time)
  {
    assert (before + [last])[..|before|] == before;
  }

  /** Starting with no conditions, the stored ones are those of the log's updates, which `ConditionsDated` describes. */
  lemma {:induction false} ConditionsOfLog(st: Status, log: seq<Entry>, st': Status)
    requires Linked(st, log, st') && st.conditions == [] && AllGenuine(log)
    ensures st'.conditions == Conditions(Updates(log))
    decreases |log|
  {
    if log != [] {
      var n, e := |log| - 1, log[|log| - 1];
      LinkedLast(st, log, st');
      ConditionsOfLog(st, log[..n], e.before);
      AfterFields(e);
      UpdatesLast(log);
      ConditionsLast(Updates(log[..n]), UpdateOf(e));
    }
  }

  /** The successful detections of a log. */
  function Detections(log: seq<Entry>): seq<seq<IdleWorkload>> {
    if log == [] then []
    else
      var last := log[|log| - 1];
      Detections(log[..|log| - 1]) + if last.listed.Some? then [last.listed.value] else []
  }

  /** Starting with no idle workloads, the stored list is that of the log's detections, which `IdleStreaks` describes:
      reconciles without a detection in between do not break a streak. */
  lemma {:induction false} IdleOfLog(st: Status, log: seq<Entry>, st': Status)
    requires Linked(st, log, st') && st.idle == [] && AllGenuine(log)
    ensures st'.idle == IdleAfter(Detections(log))
    decreases |log|
  {
    if log != [] {
      var n := |log| - 1;
      LinkedLast(st, log, st');
      IdleOfLog(st, log[..n], log[n].before);
      AfterFields(log[n]);
      var before, last := Detections(log[..n]), log[n];
      if last.listed.Some? {
        assert Detections(log) == before + [last.listed.value];
        assert Detections(log)[..|before|] == before;
      } else {
        assert Detections(log) == before;
      }
    }
  }

  /** What detection returns: each name once, in a namespace without a slash. */
  predicate Detected(workloads: seq<IdleWorkload>) {
    DistinctNames(workloads) && forall w :: w in workloads ==> '/' !in w.namespace
  }

  /** That is what `DetectIdle` ensures of its result. */
  lemma DetectIdleDetects(workloads: seq<IdleWorkload>, namespace: string, start: real)
    requires DistinctNames(workloads) && AllAt(workloads, namespace, start) && '/' !in namespace
    ensures Detected(workloads)
  {
    forall w | w in workloads ensures '/' !in w.namespace {
      var i :| 0 <= i < |workloads| && workloads[i] == w;
    }
  }

  lemma DetectedKeys(workloads: seq<IdleWorkload>)
    requires Detected(workloads)
    ensures DistinctKeys(workloads)
  {
    forall i, j | 0 <= i < j < |workloads|
      ensures Key(workloads[i].namespace, workloads[i].name) != Key(workloads[j].namespace, workloads[j].name)
    {
      if Key(workloads[i].namespace, workloads[i].name) == Key(workloads[j].namespace, workloads[j].name) {
        KeyInjective(workloads[i].namespace, workloads[i].name, workloads[j].namespace, workloads[j].name);
      }
    }
  }

  lemma DetectKeys(w: World, phase: Phase, spec: Spec, t: Tick)
    requires t.idle.Some? ==> Detected(t.idle.value)
    ensures var listed := Detect(w, phase, spec, t).1;
            listed.Some? ==> DistinctKeys(listed.value)
  {
    if Pressed(phase) && t.idle.Some? {
      FilterIdleNames(w, t.idle.value, spec.exclusions);
      var kept := FilterIdle(w, t.idle.value, spec.exclusions).1;
      assert forall k :: k in kept ==> k in t.idle.value;
      DetectedKeys(kept);
    }
  }

  lemma EntryKeys(cfg: Config, s: System, t: Tick)
    requires t.idle.Some? ==> Detected(t.idle.value)
    ensures var e := EntryOf(cfg, s, t);
            e.Some? && e.value.listed.Some? ==> DistinctKeys(e.value.listed.value)
  {
    if s.budget.Some? && Measurable(t) {
      var b := s.budget.value;
      var (s1, st) := RollOver(cfg, s.(world := s.world.(script := t.script)), b.status, t);
      DetectKeys(s1.world, DeterminePhase(BudgetPercent(b.spec, Measured(st, t).accumulated)), b.spec, t);
    }
  }

  predicate KeysOf(log: seq<Entry>) {
    forall i :: 0 <= i < |log| && log[i].listed.Some? ==> DistinctKeys(log[i].listed.value)
  }

  lemma {:induction false} LogKeys(cfg: Config, s: System, events: seq<Event>)
    requires forall i :: 0 <= i < |events| && events[i].Reconciled? && events[i].tick.idle.Some? ==>
        Detected(events[i].tick.idle.value)
    ensures KeysOf(Log(cfg, s, events))
    decreases |events|
  {
    if events != [] {
      LogKeys(cfg, Advance(cfg, s, events[0]), events[1..]);
      if events[0].Reconciled? {
        EntryKeys(cfg, s, events[0].tick);
      }
    }
  }

  lemma {:induction false} DetectionKeys(log: seq<Entry>)
    requires KeysOf(log)
    ensures forall k :: 0 <= k < |Detections(log)| ==> DistinctKeys(Detections(log)[k])
    decreases |log|
  {
    if log != [] {
      DetectionKeys(log[..|log| - 1]);
    }
  }

  /** Over any run, with whatever fails in it, the stored idle list is that of the last detection stored, each workload
      dated at the first detection of its unbroken presence. */
  lemma RunIdleStreaks(cfg: Config, s: System, events: seq<Event>)
    requires s.budget.Some? && s.budget.value.status.idle == [] && RunOf(cfg, s, events).budget.Some?
    requires forall i :: 0 <= i < |events| && events[i].Reconciled? && events[i].tick.idle.Some? ==>
        Detected(events[i].tick.idle.value)
    ensures var detections, idle := Detections(Log(cfg, s, events)), RunOf(cfg, s, events).budget.value.status.idle;
            if detections == [] then idle == []
            else
              var last := detections[|detections| - 1];
              && |idle| == |last|
              && forall i :: 0 <= i < |last| ==>
                   idle[i] == IdleStatus(last[i].name, last[i].namespace,
                                         Some(StreakSince(detections, Key(last[i].namespace, last[i].name))))
  {
    var log := Log(cfg, s, events);
    RunLinked(cfg, s, events);
    IdleOfLog(s.budget.value.status, log, RunOf(cfg, s, events).budget.value.status);
    LogKeys(cfg, s, events);
    DetectionKeys(log);
    if Detections(log) != [] {
      IdleStreaks(Detections(log));
    }
  }

  /** From here to the end of the log the stored percentages lie on one side of the threshold, and not before. */
  predicate StretchFrom(log: seq<Entry>, threshold: int, start: nat) {
    && start < |log|
    && (forall i :: start <= i < |log| ==>
          (log[i].after.percent >= threshold) == (log[|log| - 1].after.percent >= threshold))
    && (start > 0 ==> (log[start - 1].after.percent >= threshold) != (log[|log| - 1].after.percent >= threshold))
  }

  lemma UpdatesPercent(log: seq<Entry>)
    requires AllGenuine(log)
    ensures forall i :: 0 <= i < |log| ==>
              Updates(log)[i].percent == log[i].after.percent && Updates(log)[i].time == log[i].tick.written
  {
    forall i | 0 <= i < |log| ensures Updates(log)[i].percent == log[i].after.percent {
      AfterFields(log[i]);
    }
  }

  lemma StretchOfLog(log: seq<Entry>, threshold: int)
    requires AllGenuine(log) && log != []
    ensures StretchFrom(log, threshold, StretchStart(Updates(log), threshold))
  {
    UpdatesPercent(log);
    StretchStartIs(Updates(log), threshold);
  }

  /** What the two conditions say of a stored percentage. */
  function UsageWarning(percent: int, since: real): Condition {
    Condition("UsageWarning", if percent >= 80 then True else False, "BudgetThresholdReached",
              "Budget usage at " + FormatInt(percent) + "%", since)
  }

  function BudgetExceeded(percent: int, since: real): Condition {
    Condition("BudgetExceeded", if percent >= 100 then True else False, "MonthlyBudgetExceeded",
              "Budget usage at " + FormatInt(percent) + "%", since)
  }

  /** The stored conditions are the two that the last stored percentage calls for, each dated at the first stored status
      of its current stretch. */
  ghost predicate ConditionsOf(log: seq<Entry>, conditions: seq<Condition>)
    requires log != []
  {
    exists j: nat, k: nat :: ConditionsFrom(log, conditions, j, k)
  }

  predicate ConditionsFrom(log: seq<Entry>, conditions: seq<Condition>, j: nat, k: nat)
    requires log != []
  {
    var percent := log[|log| - 1].after.percent;
    && StretchFrom(log, 80, j) && StretchFrom(log, 100, k)
    && conditions == [UsageWarning(percent, log[j].tick.written), BudgetExceeded(percent, log[k].tick.written)]
  }

  lemma BothLiteral(percent: int, warned: real, exceeded: real)
    ensures Warned(percent, warned) == UsageWarning(percent, warned)
    ensures Exceeding(percent, exceeded) == BudgetExceeded(percent, exceeded)
  {
  }

  lemma LogConditions(log: seq<Entry>)
    requires log != [] && AllGenuine(log)
    ensures ConditionsOf(log, Conditions(Updates(log)))
  {
    var updates := Updates(log);
    var j, k := StretchStart(updates, 80), StretchStart(updates, 100);
    UpdatesPercent(log);
    ConditionsDated(updates);
    BothLiteral(updates[|log| - 1].percent, updates[j].time, updates[k].time);
    StretchOfLog(log, 80);
    StretchOfLog(log, 100);
    ConditionsAt(log, Conditions(updates), j, k);
  }

  lemma ConditionsAt(log: seq<Entry>, conditions: seq<Condition>, j: nat, k: nat)
    requires log != [] && StretchFrom(log, 80, j) && StretchFrom(log, 100, k)
    requires var percent := log[|log| - 1].after.percent;
             conditions == [UsageWarning(percent, log[j].tick.written), BudgetExceeded(percent, log[k].tick.written)]
    ensures ConditionsOf(log, conditions)
  {
    assert ConditionsFrom(log, conditions, j, k);
  }

  /** After any run, whatever fails in it. */
  lemma RunConditionsDated(cfg: Config, s: System, events: seq<Event>)
    requires s.budget.Some? && s.budget.value.status.conditions == [] && RunOf(cfg, s, events).budget.Some?
    ensures var log, conditions := Log(cfg, s, events), RunOf(cfg, s, events).budget.value.status.conditions;
            if log == [] then conditions == [] else ConditionsOf(log, conditions)
  {
    var log := Log(cfg, s, events);
    RunLinked(cfg, s, events);
    ConditionsOfLog(s.budget.value.status, log, RunOf(cfg, s, events).budget.value.status);
    if log != [] {
      LogConditions(log);
    }
  }

  // ------------------------------------------------------------------ what every stored status says

  /** `n` millionths are `x`, rounded. */
  predicate Rounded(n: int, x: real) {
    -0.0000005 <= n as real / 1000000.0 - x <= 0.0000005
  }

  lemma RoundedStore(x: real)
    ensures Rounded(ToMicros(x), x)
  {
    ToMicrosNearest(x);
  }

  /** Cores, and GiB of memory, in use. */
  function InUse(t: Tick, dim: Resource): real
    requires Measurable(t)
  {
    if dim.Cpu? then Sum(Values(t.cpu.value)) else Sum(Values(t.memory.value)) / 1073741824.0
  }

  /** Core-hours and GiB-hours in a ledger; text that does not parse counts as zero. */
  function AmountIn(acc: Accumulated, dim: Resource): int {
    var amount := if dim.Cpu? then acc.core else acc.gib;
    if amount.None? then 0 else amount.value
  }

  function HoursSince(lastReconcile: Option<real>, time: real): real {
    if lastReconcile.None? then 0.0 else time - lastReconcile.value
  }

  /** Usage times the time since the last stored reconcile. */
  function UsageSince(t: Tick, dim: Resource, lastReconcile: Option<real>): real
    requires Measurable(t)
  {
    InUse(t, dim) * HoursSince(lastReconcile, t.time)
  }

  lemma AccumulateRounded(stored: int, rate: real, elapsed: real)
    ensures Rounded(Accumulate(Some(stored), rate, elapsed).value, stored as real / 1000000.0 + rate * elapsed)
  {
    RoundedStore(FromMicros(stored) + rate * elapsed);
  }

  /** The ledger of every stored status: to what the last one had, or to nothing after a reset, the usage of this
      reconcile is added for the time since the last one. */
  lemma EntryLedger(e: Entry, dim: Resource)
    requires Genuine(e)
    ensures e.after.lastReconcile == Some(e.tick.time)
    ensures var before := if e.reset then 0 else AmountIn(e.before.accumulated, dim);
            Rounded(AmountIn(e.after.accumulated, dim),
                    before as real / 1000000.0 + UsageSince(e.tick, dim, e.before.lastReconcile))
  {
    AfterFields(e);
    AccumulatedAfter(e, dim);
    AmountRounded(e, dim, if e.reset then 0 else AmountIn(e.before.accumulated, dim));
  }

  lemma AmountRounded(e: Entry, dim: Resource, before: int)
    requires Measurable(e.tick)
    requires MicrosOf(e.after.accumulated, dim)
          == Accumulate(Some(before), Rate(e.tick, dim), Elapsed(e.before.lastReconcile, e.tick.time)).value
    ensures Rounded(AmountIn(e.after.accumulated, dim),
                    before as real / 1000000.0 + UsageSince(e.tick, dim, e.before.lastReconcile))
  {
    var rate, hours := Rate(e.tick, dim), Elapsed(e.before.lastReconcile, e.tick.time);
    assert rate == InUse(e.tick, dim) && hours == HoursSince(e.before.lastReconcile, e.tick.time);
    AccumulateRounded(before, rate, hours);
  }

  /** It also shows the usage found. */
  lemma EntryShows(e: Entry)
    requires Genuine(e)
    ensures Rounded(e.after.cpu, InUse(e.tick, Cpu)) && Rounded(e.after.memory, InUse(e.tick, Memory))
  {
    RoundedStore(Sum(Values(e.tick.cpu.value)));
    RoundedStore(GiB(e.tick.memory.value));
  }

  /** A ledger is begun by the first stored status, and begun anew only by a reset, which only the first of a month
      brings, and only to a ledger begun in another month. */
  lemma EntrySince(e: Entry)
    requires Genuine(e)
    ensures var since, since', today := e.before.accumulated.since, e.after.accumulated.since, e.tick.today;
            && (since.Unset? ==> since' == At(today))
            && (e.reset ==> today.day == 1 && since.At? && since.stamp.month != today.month && since' == At(today))
            && (!since.Unset? && !e.reset ==> since' == since)
  {
    AfterFields(e);
  }

  /** How much of a limit a stored amount is, in hundredths; a limit that is not positive does not count. */
  function PercentUsed(stored: Option<int>, limit: Option<real>): real {
    if limit.Some? && limit.value > 0.0
    then (if stored.None? then 0.0 else stored.value as real / 1000000.0) / limit.value * 100.0
    else 0.0
  }

  /** The percentage and the phase of every stored status follow from the ledger stored with it: the larger share
      counts, without its fraction for the percentage. */
  lemma EntryPhase(e: Entry)
    requires Genuine(e)
    ensures var st' := e.after;
            var cpu := PercentUsed(st'.accumulated.core, e.spec.cpu);
            var memory := PercentUsed(st'.accumulated.gib, e.spec.memory);
            var larger := if cpu >= memory then cpu else memory;
            && Truncated(st'.percent, larger)
            && st'.phase == if larger >= 120.0 then Suspended else if larger >= 100.0 then Exceeded
                            else if larger >= 80.0 then Warning else OK
  {
    AfterFields(e);
    TruncateIs(PercentOf(e));
    assert BudgetPercent(e.spec, e.after.accumulated) == PercentOf(e);
  }

  // ------------------------------------------------------------------ notifications

  /** What a notification announces: the new phase and the percentage. */
  datatype Alert = Alert(phase: Phase, percent: int)

  /** The phase changes a log stores. */
  function Changes(log: seq<Entry>): seq<Alert> {
    if log == [] then []
    else ChangeIn(Some(log[0])) + Changes(log[1..])
  }

  function AlertsOf(sent: seq<Notification>): seq<Alert> {
    seq(|sent|, i requires 0 <= i < |sent| => Alert(sent[i].phase, sent[i].percent))
  }

  /** The write that stores the status is also confirmed. */
  predicate Acknowledged(attempts: seq<Attempt>, left: nat)
    decreases |attempts|
  {
    left > 0 && (attempts == [] || attempts[0].Stored?
                 || (attempts[0].Meanwhile? && Acknowledged(attempts[1..], left))
                 || (attempts[0].Conflict? && Acknowledged(attempts[1..], left - 1)))
  }

  lemma {:induction false} PersistAcknowledged(b: Budget, desired: Status, attempts: seq<Attempt>, left: nat)
    ensures Persist(b, desired, attempts, left).1 <==> Acknowledged(attempts, left)
    ensures Acknowledged(attempts, left) ==> Lands(attempts, left)
    decreases |attempts|
  {
    if Edits(attempts, left) {
      PersistAcknowledged(Edited(b, attempts[0].edit), desired, attempts[1..], Left(attempts, left));
    }
  }

  /** The conflicts before the first attempt that settles the update. */
  function Conflicts(attempts: seq<Attempt>): nat {
    if attempts == [] then 0
    else if attempts[0].Conflict? then 1 + Conflicts(attempts[1..])
    else if attempts[0].Meanwhile? then Conflicts(attempts[1..])
    else 0
  }

  /** The attempt that settles it. */
  function Settling(attempts: seq<Attempt>): Attempt {
    if attempts == [] then Attempt.Stored
    else if attempts[0].Conflict? || attempts[0].Meanwhile? then Settling(attempts[1..])
    else attempts[0]
  }

  lemma {:induction false} LandsWithin(attempts: seq<Attempt>, left: nat)
    ensures Lands(attempts, left)
       <==> Conflicts(attempts) < left && (Settling(attempts).Stored? || Settling(attempts).StoredReplyLost?)
    ensures Acknowledged(attempts, left) <==> Conflicts(attempts) < left && Settling(attempts).Stored?
    decreases |attempts|
  {
    if left > 0 && attempts != [] && (attempts[0].Conflict? || attempts[0].Meanwhile?) {
      LandsWithin(attempts[1..], if attempts[0].Conflict? then left - 1 else left);
    }
  }

  /** A status update lands exactly if the attempt that settles it does and at most three conflicts come before. */
  lemma LandsMeans(attempts: seq<Attempt>)
    ensures Lands(attempts, ATTEMPTS)
       <==> Conflicts(attempts) <= 3 && (Settling(attempts).Stored? || Settling(attempts).StoredReplyLost?)
    ensures Acknowledged(attempts, ATTEMPTS) <==> Conflicts(attempts) <= 3 && Settling(attempts).Stored?
  {
    LandsWithin(attempts, 4);
  }

  /** The phase change an entry stores, if any. */
  function ChangeIn(entry: Option<Entry>): seq<Alert> {
    if entry.Some? && entry.value.before.phase != entry.value.after.phase
    then [Alert(entry.value.after.phase, entry.value.after.percent)] else []
  }

  /** Someone is to be told, the write was confirmed, and the process lives to tell. */
  predicate Attentive(cfg: Config, t: Tick) {
    cfg.webhook && !t.crash && Acknowledged(t.attempts, ATTEMPTS)
  }

  /** One reconcile notifies at most once, only of a phase change it stored, and of that exactly if it is attentive. */
  lemma ReconcileSent(cfg: Config, s: System, t: Tick)
    ensures var s' := Reconcile(cfg, s, t).0;
            && s.sent <= s'.sent
            && AlertsOf(s'.sent[|s.sent|..]) == if Attentive(cfg, t) then ChangeIn(EntryOf(cfg, s, t)) else []
  {
    var s0 := s.(world := s.world.(script := t.script));
    if t.readable && s.budget.Some? {
      var b := s.budget.value;
      RollOverBudget(cfg, s0, b.status, t);
      var (s1, st) := RollOver(cfg, s0, b.status, t);
      if !b.deleting && FINALIZER in b.finalizers && Measurable(t) {
        ObserveSent(cfg, s1, b, st, t);
      }
    }
  }

  lemma ObserveSent(cfg: Config, s: System, b: Budget, st: Status, t: Tick)
    requires Measurable(t)
    ensures var percent := BudgetPercent(b.spec, Measured(st, t).accumulated);
            var phase := DeterminePhase(percent);
            var s' := Observe(cfg, s, b, st, t).0;
            var landed := !(Pressed(phase) && b.spec.window.None?) && Lands(t.attempts, ATTEMPTS);
            && s.sent <= s'.sent
            && AlertsOf(s'.sent[|s.sent|..])
                 == if Attentive(cfg, t) && landed && b.status.phase != phase
                    then [Alert(phase, Truncate(percent))] else []
  {
    var percent := BudgetPercent(b.spec, Measured(st, t).accumulated);
    var phase := DeterminePhase(percent);
    var (w1, actionable) := Detect(s.world, phase, b.spec, t);
    var desired := Concluded(WithIdle(Measured(st, t), actionable), phase, Truncate(percent), t.written);
    PersistAcknowledged(b, desired, t.attempts, ATTEMPTS);
    var (w2, affected) := Act(w1, phase, actionable.GetOr([]), b.spec, t);
    assert (s.sent + [Notification(phase, Truncate(percent), affected)])[|s.sent|..]
        == [Notification(phase, Truncate(percent), affected)];
  }

  lemma {:induction false} SubsequenceLength<T>(a: seq<T>, b: seq<T>)
    requires Subsequence(a, b)
    ensures |a| <= |b|
    decreases |b|
  {
    if a != [] {
      if a[0] == b[0] && Subsequence(a[1..], b[1..]) {
        SubsequenceLength(a[1..], b[1..]);
      } else {
        SubsequenceLength(a, b[1..]);
      }
    }
  }

  /** A subsequence put together from a head and a tail is everything exactly if both parts are. */
  lemma {:induction false} SubsequenceJoin<T>(head: seq<T>, whole: seq<T>, a: seq<T>, b: seq<T>)
    requires |whole| <= 1 && (head == [] || head == whole) && Subsequence(a, b)
    ensures Subsequence(head + a, whole + b)
    ensures head + a == whole + b <==> head == whole && a == b
  {
    SubsequenceLength(a, b);
    if head == [] {
      assert head + a == a;
    }
    if whole == [] {
      assert whole + b == b;
    } else {
      assert (whole + b)[1..] == b;
      if head != [] {
        assert (head + a)[1..] == a;
      } else {
        assert |head + a| < |whole + b|;
      }
    }
  }

  lemma {:induction false} ChangesOne(e: Entry, rest: seq<Entry>)
    ensures Changes([e] + rest) == ChangeIn(Some(e)) + Changes(rest)
  {
    assert ([e] + rest)[1..] == rest;
  }

  lemma AlertsSplit(a: seq<Notification>, b: seq<Notification>, c: seq<Notification>)
    requires a <= b <= c
    ensures a <= c && AlertsOf(c[|a|..]) == AlertsOf(b[|a|..]) + AlertsOf(c[|b|..])
  {
    assert c[|a|..] == b[|a|..] + c[|b|..];
  }

  lemma LogStep(cfg: Config, s: System, events: seq<Event>)
    requires events != []
    ensures Changes(Log(cfg, s, events))
         == ChangeIn(EntryAt(cfg, s, events[0])) + Changes(Log(cfg, Advance(cfg, s, events[0]), events[1..]))
  {
    var rest := Log(cfg, Advance(cfg, s, events[0]), events[1..]);
    var here := EntryAt(cfg, s, events[0]);
    if here.Some? {
      ChangesOne(here.value, rest);
      assert Log(cfg, s, events) == [here.value] + rest;
    } else {
      assert Log(cfg, s, events) == rest;
      assert [] + Changes(rest) == Changes(rest);
    }
  }

  /** Every reconcile of the run that stores a phase change is attentive; the others may end as they will. */
  predicate AllAnnounced(cfg: Config, s: System, events: seq<Event>)
    decreases |events|
  {
    events == []
    || ((ChangeIn(EntryAt(cfg, s, events[0])) != [] ==> Attentive(cfg, events[0].tick))
        && AllAnnounced(cfg, Advance(cfg, s, events[0]), events[1..]))
  }

  /** Over any run the notifications attempted are a subsequence of the phase changes stored, and they are all of them
      exactly if a webhook is set and no reconcile that stored one lost the reply or died before notifying. */
  lemma {:induction false} NotificationsFollow(cfg: Config, s: System, events: seq<Event>)
    ensures var sent, sent' := s.sent, RunOf(cfg, s, events).sent;
            && sent <= sent'
            && Subsequence(AlertsOf(sent'[|sent|..]), Changes(Log(cfg, s, events)))
            && (AlertsOf(sent'[|sent|..]) == Changes(Log(cfg, s, events)) <==> AllAnnounced(cfg, s, events))
    decreases |events|
  {
    if events == [] {
      assert s.sent[|s.sent|..] == [];
    } else {
      var s1, s2 := Advance(cfg, s, events[0]), RunOf(cfg, s, events);
      var change := ChangeIn(EntryAt(cfg, s, events[0]));
      LogStep(cfg, s, events);
      if events[0].Reconciled? {
        ReconcileSent(cfg, s, events[0].tick);
      } else {
        assert s.sent[|s.sent|..] == [];
      }
      NotificationsFollow(cfg, s1, events[1..]);
      AlertsSplit(s.sent, s1.sent, s2.sent);
      SubsequenceJoin(AlertsOf(s1.sent[|s.sent|..]), change, AlertsOf(s2.sent[|s1.sent|..]),
                      Changes(Log(cfg, s1, events[1..])));
    }
  }
}
