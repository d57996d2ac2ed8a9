/** The monthly books: what the reports were given, what the ledger holds, and when the two add up. */
module Books {
  import opened Options
  import opened Decimal
  import opened ActionSpec
  import opened Provenance
  import Metrics
  import opened Budgets
  import opened Reports
  import opened ReconcileSpec
  import opened Guardian
  import opened Ledger

  type ReportMap = map<int, Report>

  function Amount(r: Report, dim: Resource): int {
    if r.status.None? then 0 else if dim.Cpu? then r.status.value.core else r.status.value.gib
  }

  ghost function TotalOf(months: set<int>, reports: ReportMap, dim: Resource): int
    requires months <= reports.Keys
  {
    if exists month :: month in months then
      var month :| month in months;
      Amount(reports[month], dim) + TotalOf(months - {month}, reports, dim)
    else 0
  }

  /** Everything handed to reports. */
  ghost function TotalReported(reports: ReportMap, dim: Resource): int {
    TotalOf(reports.Keys, reports, dim)
  }

  lemma {:induction false} TotalPick(months: set<int>, reports: ReportMap, month: int, dim: Resource)
    requires months <= reports.Keys && month in months
    ensures TotalOf(months, reports, dim) == Amount(reports[month], dim) + TotalOf(months - {month}, reports, dim)
    decreases months
  {
    var first :| first in months
                 && TotalOf(months, reports, dim)
                      == Amount(reports[first], dim) + TotalOf(months - {first}, reports, dim);
    if first != month {
      TotalPick(months - {first}, reports, month, dim);
      TotalPick(months - {month}, reports, first, dim);
      assert months - {first} - {month} == months - {month} - {first};
    }
  }

  lemma {:induction false} TotalSame(months: set<int>, a: ReportMap, b: ReportMap, dim: Resource)
    requires months <= a.Keys && months <= b.Keys && forall month :: month in months ==> a[month] == b[month]
    ensures TotalOf(months, a, dim) == TotalOf(months, b, dim)
    decreases months
  {
    if month :| month in months {
      TotalPick(months, a, month, dim);
      TotalPick(months, b, month, dim);
      TotalSame(months - {month}, a, b, dim);
    }
  }

  lemma TotalAdd(reports: ReportMap, month: int, r: Report, dim: Resource)
    requires month !in reports
    ensures TotalReported(reports[month := r], dim) == TotalReported(reports, dim) + Amount(r, dim)
  {
    var more := reports[month := r];
    TotalPick(more.Keys, more, month, dim);
    assert more.Keys - {month} == reports.Keys;
    TotalSame(reports.Keys, more, reports, dim);
  }

  // ------------------------------------------------------------------ the rollover, from its inputs

  function Due(t: Tick): int {
    t.today.month - 1
  }

  /** It is the first of a month, and the ledger was begun in another. */
  predicate Turns(s: System, t: Tick) {
    && t.readable && s.budget.Some? && t.today.day == 1
    && s.budget.value.status.accumulated.since.At?
    && s.budget.value.status.accumulated.since.stamp.month != t.today.month
  }

  /** The lookup finds the due report. */
  predicate Finds(s: System, t: Tick) {
    Turns(s, t) && t.reportGet.Done? && Due(t) in s.reports
  }

  /** The due report is missed, the usage queries succeed, and the report is created. */
  predicate Creates(s: System, t: Tick) {
    && Turns(s, t) && !t.reportGet.Refused? && !t.reportGet.ReplyLost? && Due(t) !in s.reports
    && t.usage.Some? && !t.create.Refused?
  }

  /** The created report is also filled in with the ledger. */
  predicate HandsOver(s: System, t: Tick) {
    Creates(s, t) && !t.create.ReplyLost? && !t.fill.Refused?
  }

  /** The ledger is reset in memory: the report was there, or its filling was confirmed. */
  predicate Clears(s: System, t: Tick) {
    Finds(s, t) || (HandsOver(s, t) && !t.fill.ReplyLost?)
  }

  function Begun(s: System, t: Tick): Status
    requires s.budget.Some?
  {
    var begun := Opened(s.budget.value.status, t.today);
    if Clears(s, t) then Reset(begun, t.today) else begun
  }

  /** The reconcile gets past every early return and its status lands. */
  predicate Stores(s: System, t: Tick) {
    && t.readable && s.budget.Some? && !s.budget.value.deleting && FINALIZER in s.budget.value.finalizers
    && Measurable(t) && Lands(t.attempts, ATTEMPTS)
    && (s.budget.value.spec.window.Some?
        || !Pressed(DeterminePhase(BudgetPercent(s.budget.value.spec, Measured(Begun(s, t), t).accumulated))))
  }

  lemma ResetsIfClears(cfg: Config, s: System, t: Tick)
    requires s.budget.Some? && t.readable
    ensures Resets(cfg, s, t) <==> Clears(s, t)
  {
  }

  /** These inputs decide whether a reconcile leaves an entry in the log, and whether that entry resets the ledger. */
  lemma StoresEntry(cfg: Config, s: System, t: Tick)
    ensures EntryOf(cfg, s, t).Some? <==> Stores(s, t)
    ensures Stores(s, t) ==> (EntryOf(cfg, s, t).value.reset <==> Clears(s, t))
  {
    if s.budget.Some? && t.readable {
      ResetsIfClears(cfg, s, t);
      var s0 := s.(world := s.world.(script := t.script));
      assert RollOver(cfg, s0, s.budget.value.status, t).1 == Begun(s, t);
    }
  }

  // ------------------------------------------------------------------ what one reconcile does to the reports

  /** The Deployments a report is told about: what its list call sees, or none if that fails. */
  function Surveyed(s: System, t: Tick): seq<Item> {
    s.world.(script := t.script).List(t.order).1.GetOr([])
  }

  /** The cost of the totals at the two prices, and the largest consumers. */
  ghost predicate Figures(r: ReportStatus, usage: seq<WorkloadUsage>, prices: Prices) {
    var core, gib := r.core as real / 1000000.0, r.gib as real / 1000000.0;
    && r.usd == core * prices.perCoreHour + gib * prices.perGibHour
    && LargestFive(r.consumers, usage, core, gib, prices)
  }

  lemma ContentsCost(core: int, gib: int, prices: Prices)
    ensures EstimateUSD(FromMicros(core), FromMicros(gib), prices)
         == core as real / 1000000.0 * prices.perCoreHour + gib as real / 1000000.0 * prices.perGibHour
  {
  }

  lemma ContentsLargest(usage: seq<WorkloadUsage>, core: int, gib: int, prices: Prices)
    ensures LargestFive(TopConsumers(usage, FromMicros(core), FromMicros(gib), prices), usage,
                        core as real / 1000000.0, gib as real / 1000000.0, prices)
  {
    SortDescends(usage);
    TopOfListsLargest(usage, SortByCore(usage), FromMicros(core), FromMicros(gib), prices);
  }

  lemma ContentsFigures(r: ReportStatus, usage: seq<WorkloadUsage>, prices: Prices)
    requires r.usd == EstimateUSD(FromMicros(r.core), FromMicros(r.gib), prices)
    requires r.consumers == TopConsumers(usage, FromMicros(r.core), FromMicros(r.gib), prices)
    ensures Figures(r, usage, prices)
  {
    ContentsCost(r.core, r.gib, prices);
    ContentsLargest(usage, r.core, r.gib, prices);
  }

  /** A report of the month before: the whole ledger with its figures, and the suspensions surveyed. */
  ghost predicate FilledIn(cfg: Config, s: System, r: ReportStatus, t: Tick)
    requires s.budget.Some? && t.usage.Some?
  {
    && r.period == t.today.month - 1
    && r.core == Ledgered(s, Cpu) && r.gib == Ledgered(s, Memory)
    && Figures(r, t.usage.value, cfg.prices)
    && r.events == EventsOf(Surveyed(s, t))
  }

  lemma ContentsFill(cfg: Config, s: System, t: Tick)
    requires s.budget.Some? && t.usage.Some?
    ensures FilledIn(cfg, s, ReportContents(s.budget.value.status.accumulated, Due(t), t.usage.value,
                                            EventsOf(Surveyed(s, t)), cfg.prices), t)
  {
    var acc := s.budget.value.status.accumulated;
    ContentsFigures(ReportContents(acc, Due(t), t.usage.value, EventsOf(Surveyed(s, t)), cfg.prices),
                    t.usage.value, cfg.prices);
  }

  /** One reconcile adds at most the due report, filled with the whole ledger and the suspensions surveyed
      or left empty; no report ever changes. */
  ghost predicate Filed(cfg: Config, s: System, reports': ReportMap, t: Tick) {
    if Creates(s, t) then
      && Due(t) in reports' && reports' == s.reports[Due(t) := reports'[Due(t)]]
      && (reports'[Due(t)].status.Some? <==> HandsOver(s, t))
      && (HandsOver(s, t) ==> FilledIn(cfg, s, reports'[Due(t)].status.value, t))
    else reports' == s.reports
  }

  lemma RollOverFiles(cfg: Config, s: System, t: Tick)
    requires s.budget.Some? && t.readable
    ensures var s1 := RollOver(cfg, s.(world := s.world.(script := t.script)), s.budget.value.status, t).0;
            Filed(cfg, s, s1.reports, t)
  {
    if t.usage.Some? {
      ContentsFill(cfg, s, t);
    }
  }

  lemma ObserveReports(cfg: Config, s: System, b: Budget, st: Status, t: Tick)
    requires Measurable(t)
    ensures Observe(cfg, s, b, st, t).0.reports == s.reports
  {
  }

  lemma OnlyRollOverFiles(cfg: Config, s: System, t: Tick)
    requires s.budget.Some? && t.readable
    ensures Reconcile(cfg, s, t).0.reports
         == RollOver(cfg, s.(world := s.world.(script := t.script)), s.budget.value.status, t).0.reports
  {
    var (s1, st) := RollOver(cfg, s.(world := s.world.(script := t.script)), s.budget.value.status, t);
    if Measurable(t) {
      ObserveReports(cfg, s1, s.budget.value, st, t);
    }
  }

  lemma ReconcileReports(cfg: Config, s: System, t: Tick)
    ensures Filed(cfg, s, Reconcile(cfg, s, t).0.reports, t)
  {
    if s.budget.Some? && t.readable {
      OnlyRollOverFiles(cfg, s, t);
      RollOverFiles(cfg, s, t);
    }
  }

  /** Over any run each month has at most one report, written once: a report that exists is never touched again. */
  lemma {:induction false} ReportsWrittenOnce(cfg: Config, s: System, events: seq<Event>, month: int)
    requires month in s.reports
    ensures month in RunOf(cfg, s, events).reports && RunOf(cfg, s, events).reports[month] == s.reports[month]
    decreases |events|
  {
    if events != [] {
      if events[0].Reconciled? {
        ReconcileReports(cfg, s, events[0].tick);
      }
      ReportsWrittenOnce(cfg, Advance(cfg, s, events[0]), events[1..], month);
    }
  }

  lemma SurveyFaithful(s: System, t: Tick, origin: Objects)
    requires Honest(s.world, origin)
    ensures FaithfulItems(Surveyed(s, t), origin)
  {
    var w := s.world.(script := t.script);
    RescriptHonest(s.world, t.script, origin);
    HonestNow(w, origin);
    ItemsFaithful(w.Seen(), t.order, origin);
  }

  /** Over any run every report handed over keeps listing exactly the Deployments the operator had scaled down, in list
      order and with its reason, as the list call of the reconcile that filled it saw them. */
  lemma {:induction false} ReportEvents(cfg: Config, s: System, events: seq<Event>, n: nat, origin: Objects)
    requires Guarded(s, origin) && AlwaysTimely(cfg, s, events)
    requires n < |events| && events[n].Reconciled? && HandsOver(RunOf(cfg, s, events[..n]), events[n].tick)
    ensures var t, reports := events[n].tick, RunOf(cfg, s, events).reports;
            && Due(t) in reports && reports[Due(t)].status.Some?
            && var listed := reports[Due(t)].status.value.events;
               EventsTell(listed, MarkedItems(Surveyed(RunOf(cfg, s, events[..n]), t)))
    decreases |events|
  {
    var s1 := Advance(cfg, s, events[0]);
    if n == 0 {
      var t := events[0].tick;
      ReconcileReports(cfg, s, t);
      ReportsWrittenOnce(cfg, s1, events[1..], Due(t));
      SurveyFaithful(s, t, origin);
      EventsAreMarked(Surveyed(s, t), origin);
    } else {
      EventGuarded(cfg, s, events[0], origin);
      assert events[..n][1..] == events[1..][..n - 1];
      ReportEvents(cfg, s1, events[1..], n - 1, origin);
    }
  }

  /** A stored reset implies that the previous month's report exists. */
  lemma ResetHasReport(cfg: Config, s: System, t: Tick)
    requires EntryOf(cfg, s, t).Some? && EntryOf(cfg, s, t).value.reset
    ensures Due(t) in Reconcile(cfg, s, t).0.reports
  {
    StoresEntry(cfg, s, t);
    ReconcileReports(cfg, s, t);
  }

  /** And it still does at the end of the run. */
  lemma {:induction false} ResetsReported(cfg: Config, s: System, events: seq<Event>)
    ensures forall i :: 0 <= i < |Log(cfg, s, events)| && Log(cfg, s, events)[i].reset ==>
              Due(Log(cfg, s, events)[i].tick) in RunOf(cfg, s, events).reports
    decreases |events|
  {
    if events != [] {
      var s1 := Advance(cfg, s, events[0]);
      ResetsReported(cfg, s1, events[1..]);
      var rest := Log(cfg, s1, events[1..]);
      var here := EntryAt(cfg, s, events[0]);
      if here.Some? {
        assert Log(cfg, s, events) == [here.value] + rest;
        if here.value.reset {
          ResetHasReport(cfg, s, events[0].tick);
          ReportsWrittenOnce(cfg, s1, events[1..], Due(events[0].tick));
        }
      } else {
        assert Log(cfg, s, events) == rest;
      }
    }
  }

  // ------------------------------------------------------------------ one reset a month

  lemma SinceAfter(e: Entry)
    requires Genuine(e)
    ensures e.after.accumulated.since
         == if e.reset then At(e.tick.today) else Opened(e.before, e.tick.today).accumulated.since
  {
    AfterFields(e);
  }

  predicate Within(since: Since, low: int, high: int) {
    since.At? && low <= since.stamp.month <= high
  }

  lemma {:induction false} SinceWithin(st: Status, log: seq<Entry>, st': Status, low: int, high: int)
    requires Linked(st, log, st') && AllGenuine(log) && Within(st.accumulated.since, low, high)
    requires forall i :: 0 <= i < |log| ==> low <= log[i].tick.today.month <= high
    ensures Within(st'.accumulated.since, low, high)
    decreases |log|
  {
    if log != [] {
      SinceAfter(log[0]);
      SinceWithin(log[0].after, log[1..], st', low, high);
    }
  }

  lemma {:induction false} LinkedPrefix(st: Status, log: seq<Entry>, st': Status, n: nat)
    requires Linked(st, log, st') && n < |log|
    ensures Linked(st, log[..n], log[n].before)
    decreases |log|
  {
    if n > 0 {
      LinkedPrefix(log[0].after, log[1..], st', n - 1);
      assert log[..n][1..] == log[1..][..n - 1];
    }
  }

  lemma FirstResetIsEarlier(st: Status, log: seq<Entry>, st': Status, j: nat)
    requires Linked(st, log, st') && AllGenuine(log) && 0 < j < |log| && log[0].reset && log[j].reset
    requires forall i :: 0 <= i <= j ==> log[0].tick.today.month <= log[i].tick.today.month <= log[j].tick.today.month
    ensures log[0].tick.today.month < log[j].tick.today.month
  {
    var rest := log[1..];
    LinkedPrefix(log[0].after, rest, st', j - 1);
    SinceAfter(log[0]);
    var between := rest[..j - 1];
    assert forall i :: 0 <= i < |between| ==> between[i] == log[i + 1];
    SinceWithin(log[0].after, between, log[j].before, log[0].tick.today.month, log[j].tick.today.month);
    ResetIsLater(log[j], log[0].tick.today.month);
  }

  lemma ResetIsLater(e: Entry, low: int)
    requires Genuine(e) && e.reset && Within(e.before.accumulated.since, low, e.tick.today.month)
    ensures low < e.tick.today.month
  {
  }

  /** On a calendar that does not run backwards, the months of the stored resets strictly increase:
      each month sees at most one. */
  lemma {:induction false} ResetsIncrease(st: Status, log: seq<Entry>, st': Status)
    requires Linked(st, log, st') && AllGenuine(log)
    requires forall i, j :: 0 <= i < j < |log| ==> log[i].tick.today.month <= log[j].tick.today.month
    ensures forall i, j :: 0 <= i < j < |log| && log[i].reset && log[j].reset ==>
        log[i].tick.today.month < log[j].tick.today.month
    decreases |log|
  {
    if log != [] {
      var rest := log[1..];
      ResetsIncrease(log[0].after, rest, st');
      forall i, j | 0 <= i < j < |log| && log[i].reset && log[j].reset
        ensures log[i].tick.today.month < log[j].tick.today.month
      {
        if i == 0 {
          FirstResetIsEarlier(st, log, st', j);
        } else {
          assert log[i] == rest[i - 1] && log[j] == rest[j - 1];
        }
      }
    }
  }

  // ------------------------------------------------------------------ conservation

  function Ledgered(s: System, dim: Resource): int
    requires s.budget.Some?
  {
    MicrosOf(s.budget.value.status.accumulated, dim)
  }

  /** Everything handed to reports and everything in the ledger. */
  ghost function Books(s: System, dim: Resource): int
    requires s.budget.Some?
  {
    TotalReported(s.reports, dim) + Ledgered(s, dim)
  }

  /** The rounded increment stored, on top of what the rollover left. */
  function Gained(cfg: Config, s: System, t: Tick, dim: Resource): int {
    var e := EntryOf(cfg, s, t);
    if e.None? then 0
    else MicrosOf(e.value.after.accumulated, dim) - MicrosOf(Rolled(e.value).accumulated, dim)
  }

  /** How far one reconcile moves the books beyond what it gained: up by what it hands over, down by what it resets. */
  function Drift(s: System, t: Tick, dim: Resource): int
    requires s.budget.Some?
  {
    (if HandsOver(s, t) then Ledgered(s, dim) else 0) - (if Clears(s, t) && Stores(s, t) then Ledgered(s, dim) else 0)
  }

  /** The two ways to break the books: to store a reset because some earlier reconcile created the report,
      and to hand the ledger over without storing the reset. */
  predicate Breaks(s: System, t: Tick) {
    || (Finds(s, t) && Stores(s, t))
    || (HandsOver(s, t) && (t.fill.ReplyLost? || !Stores(s, t)))
  }

  lemma ReconcileReported(cfg: Config, s: System, t: Tick, dim: Resource)
    requires s.budget.Some?
    ensures TotalReported(Reconcile(cfg, s, t).0.reports, dim)
         == TotalReported(s.reports, dim) + if HandsOver(s, t) then Ledgered(s, dim) else 0
  {
    ReconcileReports(cfg, s, t);
    var reports' := Reconcile(cfg, s, t).0.reports;
    if Creates(s, t) {
      TotalAdd(s.reports, Due(t), reports'[Due(t)], dim);
    }
  }

  lemma RolledStored(e: Entry, dim: Resource)
    ensures MicrosOf(Rolled(e).accumulated, dim) == if e.reset then 0 else MicrosOf(e.before.accumulated, dim)
  {
  }

  lemma ReconcileLedgered(cfg: Config, s: System, t: Tick, dim: Resource)
    requires s.budget.Some? && Reconcile(cfg, s, t).0.budget.Some?
    ensures Ledgered(Reconcile(cfg, s, t).0, dim)
         == Ledgered(s, dim) + Gained(cfg, s, t, dim) - if Clears(s, t) && Stores(s, t) then Ledgered(s, dim) else 0
  {
    StoresEntry(cfg, s, t);
    ReconcileStatus(cfg, s, t);
    if EntryOf(cfg, s, t).Some? {
      RolledStored(EntryOf(cfg, s, t).value, dim);
    }
  }

  /** One reconcile keeps the books exactly when it does not break them in one of the two ways,
      or the ledger is empty. */
  lemma ReconcileBooks(cfg: Config, s: System, t: Tick, dim: Resource)
    requires s.budget.Some? && Reconcile(cfg, s, t).0.budget.Some?
    ensures Books(Reconcile(cfg, s, t).0, dim) == Books(s, dim) + Gained(cfg, s, t, dim) + Drift(s, t, dim)
    ensures Books(Reconcile(cfg, s, t).0, dim) == Books(s, dim) + Gained(cfg, s, t, dim)
       <==> !Breaks(s, t) || Ledgered(s, dim) == 0
  {
    ReconcileReported(cfg, s, t, dim);
    ReconcileLedgered(cfg, s, t, dim);
  }

  function GainedOver(cfg: Config, s: System, events: seq<Event>, dim: Resource): int
    decreases |events|
  {
    if events == [] then 0
    else (if events[0].Reconciled? then Gained(cfg, s, events[0].tick, dim) else 0)
         + GainedOver(cfg, Advance(cfg, s, events[0]), events[1..], dim)
  }

  function DriftOver(cfg: Config, s: System, events: seq<Event>, dim: Resource): int
    decreases |events|
  {
    if events == [] || s.budget.None? then 0
    else (if events[0].Reconciled? then Drift(s, events[0].tick, dim) else 0)
         + DriftOver(cfg, Advance(cfg, s, events[0]), events[1..], dim)
  }

  /** The books of any run, whatever fails in it: what was handed to reports plus what the ledger holds is what it was
      at the start, plus all stored increments, plus the ledgers handed over whose reset was not stored with them,
      minus the ledgers reset that were not handed over with it. */
  lemma {:induction false} RunBooks(cfg: Config, s: System, events: seq<Event>, dim: Resource)
    requires s.budget.Some? && RunOf(cfg, s, events).budget.Some?
    ensures Books(RunOf(cfg, s, events), dim)
        == Books(s, dim) + GainedOver(cfg, s, events, dim) + DriftOver(cfg, s, events, dim)
    decreases |events|
  {
    if events != [] {
      var s1 := Advance(cfg, s, events[0]);
      if s1.budget.None? {
        GoneStaysGone(cfg, s1, events[1..]);
      }
      if events[0].Reconciled? {
        ReconcileBooks(cfg, s, events[0].tick, dim);
      }
      RunBooks(cfg, s1, events[1..], dim);
    }
  }

  // ------------------------------------------------------------------ runs without a fault in the rollover

  /** No fault falls between creating a report and storing the reset: both writes of the report are confirmed
      and the status lands. */
  predicate Settled(s: System, t: Tick) {
    Creates(s, t) ==> !t.create.ReplyLost? && !t.fill.Refused? && !t.fill.ReplyLost? && Stores(s, t)
  }

  predicate AllSettled(cfg: Config, s: System, events: seq<Event>)
    decreases |events|
  {
    events == []
    || ((events[0].Reconciled? ==> Settled(s, events[0].tick))
        && AllSettled(cfg, Advance(cfg, s, events[0]), events[1..]))
  }

  /** The calendar does not run backwards from month `now`. */
  predicate Forward(events: seq<Event>, now: int)
    decreases |events|
  {
    events == []
    || if events[0].Reconciled?
       then now <= events[0].tick.today.month && Forward(events[1..], events[0].tick.today.month)
       else Forward(events[1..], now)
  }

  /** In month `now` every report is of a month before the ledger's, which is not a month to come. */
  predicate Orderly(s: System, now: int) {
    s.budget.Some? ==>
      match s.budget.value.status.accumulated.since
      case At(stamp) => stamp.month <= now && forall month :: month in s.reports ==> month < stamp.month
      case Unset => forall month :: month in s.reports ==> month < now
      case Garbled => true
  }

  lemma ReconcileSince(cfg: Config, s: System, t: Tick)
    requires s.budget.Some? && Reconcile(cfg, s, t).0.budget.Some?
    ensures Reconcile(cfg, s, t).0.budget.value.status.accumulated.since
         == if Stores(s, t) then Begun(s, t).accumulated.since else s.budget.value.status.accumulated.since
  {
    StoresEntry(cfg, s, t);
    ReconcileStatus(cfg, s, t);
    if EntryOf(cfg, s, t).Some? {
      EntryGenuine(cfg, s, t);
      SinceAfter(EntryOf(cfg, s, t).value);
    }
  }

  /** In an orderly state no report is found, so without a fault the report and the reset go together;
      and the state stays orderly. */
  lemma SettledStep(cfg: Config, s: System, t: Tick, now: int)
    requires Orderly(s, now) && now <= t.today.month && Settled(s, t)
    ensures !Breaks(s, t) && Orderly(Reconcile(cfg, s, t).0, t.today.month)
  {
    var s' := Reconcile(cfg, s, t).0;
    if s.budget.Some? {
      ReconcileReports(cfg, s, t);
      if s'.budget.Some? {
        ReconcileSince(cfg, s, t);
      }
    }
  }

  lemma SettledBooks(cfg: Config, s: System, t: Tick, now: int, dim: Resource)
    requires Orderly(s, now) && now <= t.today.month && Settled(s, t)
    requires s.budget.Some? && Reconcile(cfg, s, t).0.budget.Some?
    ensures Books(Reconcile(cfg, s, t).0, dim) == Books(s, dim) + Gained(cfg, s, t, dim)
  {
    SettledStep(cfg, s, t, now);
    ReconcileBooks(cfg, s, t, dim);
  }

  /** When no fault falls between a report and the stored reset, every hour metered is in exactly one place, a report or
      the current ledger, whatever else fails. */
  lemma {:induction false} BooksConserved(cfg: Config, s: System, events: seq<Event>, now: int, dim: Resource)
    requires s.budget.Some? && RunOf(cfg, s, events).budget.Some?
    requires Orderly(s, now) && Forward(events, now) && AllSettled(cfg, s, events)
    ensures Books(RunOf(cfg, s, events), dim) == Books(s, dim) + GainedOver(cfg, s, events, dim)
    decreases |events|
  {
    if events != [] {
      var s1 := Advance(cfg, s, events[0]);
      if s1.budget.None? {
        GoneStaysGone(cfg, s1, events[1..]);
      }
      if events[0].Reconciled? {
        var t := events[0].tick;
        SettledStep(cfg, s, t, now);
        if s1.budget.Some? {
          SettledBooks(cfg, s, t, now, dim);
        }
        BooksConserved(cfg, s1, events[1..], t.today.month, dim);
      } else {
        BooksConserved(cfg, s1, events[1..], now, dim);
      }
    }
  }

  // ------------------------------------------------------------------ a reset that comes late

  /** The run stays in the month of a report that exists, and stores no reset. */
  predicate Lingers(cfg: Config, s: System, events: seq<Event>, month: int)
    decreases |events|
  {
    events == []
    || ((events[0].Reconciled? ==>
           Due(events[0].tick) == month && !(Clears(s, events[0].tick) && Stores(s, events[0].tick)))
        && Lingers(cfg, Advance(cfg, s, events[0]), events[1..], month))
  }

  lemma {:induction false} LingeringBooks(cfg: Config, s: System, events: seq<Event>, month: int, dim: Resource)
    requires s.budget.Some? && RunOf(cfg, s, events).budget.Some?
    requires month in s.reports && Lingers(cfg, s, events, month)
    ensures RunOf(cfg, s, events).reports == s.reports
    ensures Ledgered(RunOf(cfg, s, events), dim) == Ledgered(s, dim) + GainedOver(cfg, s, events, dim)
    decreases |events|
  {
    if events != [] {
      var s1 := Advance(cfg, s, events[0]);
      if s1.budget.None? {
        GoneStaysGone(cfg, s1, events[1..]);
      }
      if events[0].Reconciled? {
        ReconcileReports(cfg, s, events[0].tick);
        ReconcileLedgered(cfg, s, events[0].tick, dim);
      }
      LingeringBooks(cfg, s1, events[1..], month, dim);
    }
  }

  /** A ledger handed over without its reset, and then a run up to the reconcile of the same first of the month that
      finds the report and stores the reset: the books come out short by exactly what was stored in between. So a lost
      reset is made good if nothing was, and otherwise those increments are in no report and no ledger. */
  lemma LateReset(cfg: Config, s: System, first: Tick, events: seq<Event>, last: Tick, dim: Resource)
    requires s.budget.Some? && HandsOver(s, first) && !(Clears(s, first) && Stores(s, first))
    requires Lingers(cfg, Reconcile(cfg, s, first).0, events, Due(first)) && Due(last) == Due(first)
    requires var s2 := RunOf(cfg, Reconcile(cfg, s, first).0, events); Finds(s2, last) && Stores(s2, last)
    ensures var s1 := Reconcile(cfg, s, first).0;
            var s2 := RunOf(cfg, s1, events);
            var s3 := Reconcile(cfg, s2, last).0;
            var between := Gained(cfg, s, first, dim) + GainedOver(cfg, s1, events, dim);
            && s3.budget.Some?
            && Books(s3, dim) == Books(s, dim) + Gained(cfg, s2, last, dim)
            && (Books(s3, dim) == Books(s, dim) + between + Gained(cfg, s2, last, dim) <==> between == 0)
  {
    var s1 := Reconcile(cfg, s, first).0;
    var s2 := RunOf(cfg, s1, events);
    if s1.budget.None? {
      GoneStaysGone(cfg, s1, events);
    }
    ReconcileReports(cfg, s, first);
    ReconcileBooks(cfg, s, first, dim);
    ReconcileLedgered(cfg, s, first, dim);
    LingeringBooks(cfg, s1, events, Due(first), dim);
    StoresEntry(cfg, s2, last);
    EntryKeepsBudget(cfg, s2, last);
    ReconcileBooks(cfg, s2, last, dim);
  }

  lemma EntryKeepsBudget(cfg: Config, s: System, t: Tick)
    requires EntryOf(cfg, s, t).Some?
    ensures Reconcile(cfg, s, t).0.budget.Some?
  {
    RollOverBudget(cfg, s.(world := s.world.(script := t.script)), s.budget.value.status, t);
  }

  // ------------------------------------------------------------------ where the books break

  /** Five core-hours, metered in month 0. */
  const FIVE_HOURS := Accumulated(Some(5000000), Some(0), At(Stamp(0.0, 0, 5)))
  const CONFIG := Config(Prices(0.0, 0.0), false)
  const OPEN := System(Some(Budget(Spec(None, None, Some(0.5), []),
                                   Status(OK, 0, 0, FIVE_HOURS, Some(0.0), 0, [], []), {FINALIZER}, false)),
                       map[], World([], map[], []), [])

  /** A reconcile on the first of a month whose calls go well but for the given ones. */
  function FirstOf(month: int, fill: Outcome, cpu: Option<seq<Metrics.Sample>>): Tick {
    Tick(true, Stamp(0.0, month, 1), Done, Some([]), Done, fill, Done, cpu, Some([]), 0.0, None, 0.0, [], false, [],
         _ => "", [])
  }

  lemma FirstReconcile(fill: Outcome, s1: System)
    requires s1 == Reconcile(CONFIG, OPEN, FirstOf(1, fill, None)).0
    ensures s1.budget == OPEN.budget && s1.world == OPEN.world
    ensures fill.Refused? ==> s1.reports == map[0 := Report(None)]
    ensures fill.Done? ==> 0 in s1.reports && s1.reports == map[0 := s1.reports[0]] && s1.reports[0].status.Some?
  {
    var t := FirstOf(1, fill, None);
    assert OPEN.(world := OPEN.world.(script := t.script)) == OPEN;
    assert map[][0 := Report(None)] == map[0 := Report(None)];
  }

  /** The report is created but not filled in; the next reconcile finds it there and resets the ledger. Of five
      core-hours nothing is left in a report, and nothing in the ledger but what was metered since. */
  lemma EmptyReportLoses()
    ensures var s1 := Reconcile(CONFIG, OPEN, FirstOf(1, Refused, None)).0;
            var s2 := Reconcile(CONFIG, s1, FirstOf(1, Done, Some([]))).0;
            && s2.budget.Some? && Books(OPEN, Cpu) == 5000000
            && Books(s2, Cpu) == Gained(CONFIG, s1, FirstOf(1, Done, Some([])), Cpu)
  {
    var s1 := Reconcile(CONFIG, OPEN, FirstOf(1, Refused, None)).0;
    FirstReconcile(Refused, s1);
    var t := FirstOf(1, Done, Some([]));
    TotalAdd(map[], 0, Report(None), Cpu);
    assert map[][0 := Report(None)] == s1.reports;
    assert Books(s1, Cpu) == 5000000;
    FoundReset(s1, t);
    EntryKeepsBudget(CONFIG, s1, t);
    ReconcileBooks(CONFIG, s1, t, Cpu);
  }

  lemma FoundReset(s: System, t: Tick)
    requires s.budget == OPEN.budget && s.world == OPEN.world && s.reports == map[0 := Report(None)]
        && t == FirstOf(1, Done, Some([]))
    ensures Finds(s, t) && Stores(s, t)
  {
  }

  /** The report is filled in, but the reset is not stored on that day: a month later the same five core-hours
      are reported again. */
  lemma MissedDayCountsTwice()
    ensures var s1 := Reconcile(CONFIG, OPEN, FirstOf(1, Done, None)).0;
            var s2 := Reconcile(CONFIG, s1, FirstOf(2, Done, None)).0;
            && s2.budget.Some? && Books(OPEN, Cpu) == 5000000 && TotalReported(s2.reports, Cpu) == 10000000
            && Gained(CONFIG, OPEN, FirstOf(1, Done, None), Cpu) == 0
            && Gained(CONFIG, s1, FirstOf(2, Done, None), Cpu) == 0
  {
    var t1, t2 := FirstOf(1, Done, None), FirstOf(2, Done, None);
    var s1 := Reconcile(CONFIG, OPEN, t1).0;
    FirstReconcile(Done, s1);
    ReconcileReported(CONFIG, OPEN, t1, Cpu);
    SecondReport(s1, t2);
    ReconcileReported(CONFIG, s1, t2, Cpu);
    EarlyReturn(OPEN, t1);
    EarlyReturn(s1, t2);
  }

  lemma EarlyReturn(s: System, t: Tick)
    requires t.cpu.None?
    ensures Gained(CONFIG, s, t, Cpu) == 0
  {
  }

  lemma SecondReport(s: System, t: Tick)
    requires s.budget == OPEN.budget && s.world == OPEN.world && s.reports.Keys == {0} && t == FirstOf(2, Done, None)
    ensures Reconcile(CONFIG, s, t).0.budget == s.budget && HandsOver(s, t)
  {
    assert s.(world := s.world.(script := t.script)) == s;
  }
}
