/** The contents of a monthly CostReport: the total cost, the top consumers and the suspension events. */
module Reports {
  import opened Deployments
  import opened ActionSpec
  import opened Provenance
  import opened Budgets
  import Metrics

  datatype WorkloadUsage = WorkloadUsage(name: string, coreHours: real, gibHours: real)
  datatype Prices = Prices(perCoreHour: real, perGibHour: real)
  datatype TopConsumer = TopConsumer(workload: string, cpuPercent: int, memoryPercent: int, usd: real)
  datatype SuspensionEvent = SuspensionEvent(workload: string, scaledDownAt: string, reason: string)

  function EstimateUSD(coreHours: real, gibHours: real, prices: Prices): real {
    coreHours * prices.perCoreHour + gibHours * prices.perGibHour
  }

  // ------------------------------------------------------------------ top consumers

  const TOP := 5

  predicate Descending(workloads: seq<WorkloadUsage>) {
    forall i, j :: 0 <= i < j < |workloads| ==> workloads[i].coreHours >= workloads[j].coreHours
  }

  function Insert(w: WorkloadUsage, sorted: seq<WorkloadUsage>): (r: seq<WorkloadUsage>)
    ensures multiset(r) == multiset(sorted) + multiset{w}
  {
    if sorted == [] then [w]
    else if w.coreHours >= sorted[0].coreHours then [w] + sorted
    else
      assert sorted == [sorted[0]] + sorted[1..];
      [sorted[0]] + Insert(w, sorted[1..])
  }

  /** By core-hours, largest first. */
  function SortByCore(workloads: seq<WorkloadUsage>): (r: seq<WorkloadUsage>)
    ensures multiset(r) == multiset(workloads)
  {
    if workloads == [] then []
    else
      assert workloads == [workloads[0]] + workloads[1..];
      Insert(workloads[0], SortByCore(workloads[1..]))
  }

  lemma {:induction false} InsertDescends(w: WorkloadUsage, sorted: seq<WorkloadUsage>)
    requires Descending(sorted)
    ensures Descending(Insert(w, sorted))
  {
    if sorted != [] && w.coreHours < sorted[0].coreHours {
      InsertDescends(w, sorted[1..]);
      var r, tail := Insert(w, sorted), Insert(w, sorted[1..]);
      forall j | 0 <= j < |tail| ensures sorted[0].coreHours >= tail[j].coreHours {
        assert tail[j] in multiset(tail);
        assert tail[j] == w || tail[j] in sorted[1..];
      }
    }
  }

  lemma {:induction false} SortDescends(workloads: seq<WorkloadUsage>)
    ensures Descending(SortByCore(workloads))
  {
    if workloads != [] {
      SortDescends(workloads[1..]);
      InsertDescends(workloads[0], SortByCore(workloads[1..]));
    }
  }

  function Share(part: real, total: real): real {
    if total > 0.0 then part / total * 100.0 else 0.0
  }

  function Consumer(w: WorkloadUsage, totalCore: real, totalGib: real, prices: Prices): TopConsumer {
    TopConsumer(w.name, Truncate(Share(w.coreHours, totalCore)), Truncate(Share(w.gibHours, totalGib)),
                EstimateUSD(w.coreHours, w.gibHours, prices))
  }

  function Limit(n: nat): nat {
    if n < TOP then n else TOP
  }

  /** The consumers listed when the sort leaves this order. */
  function TopOf(sorted: seq<WorkloadUsage>, totalCore: real, totalGib: real, prices: Prices): seq<TopConsumer> {
    seq(Limit(|sorted|), i requires 0 <= i < Limit(|sorted|) => Consumer(sorted[i], totalCore, totalGib, prices))
  }

  function TopConsumers(workloads: seq<WorkloadUsage>, totalCore: real, totalGib: real,
                        prices: Prices): seq<TopConsumer> {
    TopOf(SortByCore(workloads), totalCore, totalGib, prices)
  }

  /** `sort.Slice` may leave ties in any order, and so may this one: every descending order is what it makes of
      the workloads listed in that order. */
  lemma {:induction false} AnyOrderReached(sorted: seq<WorkloadUsage>, totalCore: real, totalGib: real, prices: Prices)
    requires Descending(sorted)
    ensures SortByCore(sorted) == sorted
    ensures TopConsumers(sorted, totalCore, totalGib, prices) == TopOf(sorted, totalCore, totalGib, prices)
  {
    if sorted != [] {
      AnyOrderReached(sorted[1..], totalCore, totalGib, prices);
      if |sorted| > 1 {
        assert sorted[0].coreHours >= sorted[1].coreHours;
      }
    }
  }

  /** A listed consumer: name, truncated shares of the totals, and cost at the two prices. */
  predicate ListedAs(c: TopConsumer, w: WorkloadUsage, totalCore: real, totalGib: real, prices: Prices) {
    && c.workload == w.name
    && Truncated(c.cpuPercent, if totalCore > 0.0 then w.coreHours / totalCore * 100.0 else 0.0)
    && Truncated(c.memoryPercent, if totalGib > 0.0 then w.gibHours / totalGib * 100.0 else 0.0)
    && c.usd == w.coreHours * prices.perCoreHour + w.gibHours * prices.perGibHour
  }

  /** The workloads fall into those listed, largest first, and a rest of which none is larger. */
  predicate Splits(workloads: seq<WorkloadUsage>, listed: seq<WorkloadUsage>, rest: seq<WorkloadUsage>) {
    && multiset(workloads) == multiset(listed) + multiset(rest)
    && (forall i, j :: 0 <= i < j < |listed| ==> listed[i].coreHours >= listed[j].coreHours)
    && forall i, j :: 0 <= i < |listed| && 0 <= j < |rest| ==> listed[i].coreHours >= rest[j].coreHours
  }

  /** The consumers are the five largest workloads, or all if there are fewer. */
  ghost predicate LargestFive(consumers: seq<TopConsumer>, workloads: seq<WorkloadUsage>, totalCore: real,
                              totalGib: real, prices: Prices) {
    exists listed, rest ::
      && Splits(workloads, listed, rest)
      && |consumers| == |listed| == (if |workloads| < 5 then |workloads| else 5)
      && forall i :: 0 <= i < |consumers| ==> ListedAs(consumers[i], listed[i], totalCore, totalGib, prices)
  }

  lemma ConsumerListed(w: WorkloadUsage, totalCore: real, totalGib: real, prices: Prices)
    ensures ListedAs(Consumer(w, totalCore, totalGib, prices), w, totalCore, totalGib, prices)
  {
    TruncateIs(Share(w.coreHours, totalCore));
    TruncateIs(Share(w.gibHours, totalGib));
  }

  /** Whatever order the sort leaves. */
  lemma TopOfListsLargest(workloads: seq<WorkloadUsage>, sorted: seq<WorkloadUsage>, totalCore: real, totalGib: real,
                          prices: Prices)
    requires multiset(sorted) == multiset(workloads) && Descending(sorted)
    ensures LargestFive(TopOf(sorted, totalCore, totalGib, prices), workloads, totalCore, totalGib, prices)
  {
    TopOfAnyOrder(workloads, sorted);
    SameLength(sorted, workloads);
    var consumers := TopOf(sorted, totalCore, totalGib, prices);
    var listed, rest := sorted[..Limit(|sorted|)], sorted[Limit(|sorted|)..];
    assert Splits(workloads, listed, rest);
    forall i | 0 <= i < |consumers| ensures ListedAs(consumers[i], listed[i], totalCore, totalGib, prices) {
      ConsumerListed(sorted[i], totalCore, totalGib, prices);
    }
  }

  method BuildTopConsumers(workloads: seq<WorkloadUsage>, totalCore: real, totalGib: real, prices: Prices)
    returns (consumers: seq<TopConsumer>)
    ensures LargestFive(consumers, workloads, totalCore, totalGib, prices)
    ensures consumers == TopConsumers(workloads, totalCore, totalGib, prices)
  {
    var sorted := SortByCore(workloads);
    SortDescends(workloads);
    TopOfListsLargest(workloads, sorted, totalCore, totalGib, prices);
    var limit := if |sorted| < TOP then |sorted| else TOP;
    consumers := [];
    for i := 0 to limit
      invariant |consumers| == i
      invariant forall j :: 0 <= j < i ==> consumers[j] == Consumer(sorted[j], totalCore, totalGib, prices)
    {
      var w := sorted[i];
      var cpuPct, memPct := 0.0, 0.0;
      if totalCore > 0.0 {
        cpuPct := w.coreHours / totalCore * 100.0;
      }
      if totalGib > 0.0 {
        memPct := w.gibHours / totalGib * 100.0;
      }
      consumers := consumers + [TopConsumer(w.name, Truncate(cpuPct), Truncate(memPct),
                                            EstimateUSD(w.coreHours, w.gibHours, prices))];
    }
  }

  /** For any order the sort may leave: the first five (or all, if fewer) come largest first; they and the rest are
      together the workloads, each as often as it occurs; and no workload of the rest is larger than one listed. */
  lemma TopOfAnyOrder(workloads: seq<WorkloadUsage>, sorted: seq<WorkloadUsage>)
    requires multiset(sorted) == multiset(workloads) && Descending(sorted)
    ensures var top, rest := sorted[..Limit(|sorted|)], sorted[Limit(|sorted|)..];
            && |top| == Limit(|workloads|)
            && Descending(top)
            && multiset(workloads) == multiset(top) + multiset(rest)
            && forall i, j :: 0 <= i < |top| && 0 <= j < |rest| ==> top[i].coreHours >= rest[j].coreHours
  {
    SameLength(sorted, workloads);
    assert sorted == sorted[..Limit(|sorted|)] + sorted[Limit(|sorted|)..];
  }

  lemma SameLength<T>(a: seq<T>, b: seq<T>)
    requires multiset(a) == multiset(b)
    ensures |a| == |b|
  {
    assert |a| == |multiset(a)| == |multiset(b)| == |b|;
  }

  /** Two such orders agree on the core-hours at every rank, so ties are all that is left open. */
  lemma {:induction false} RanksAgree(a: seq<WorkloadUsage>, b: seq<WorkloadUsage>, i: nat)
    requires multiset(a) == multiset(b) && Descending(a) && Descending(b) && i < |a|
    ensures |a| == |b| && a[i].coreHours == b[i].coreHours
  {
    SameLength(a, b);
    RankBelow(a, b, i);
    RankBelow(b, a, i);
  }

  lemma RankBelow(a: seq<WorkloadUsage>, b: seq<WorkloadUsage>, i: nat)
    requires multiset(a) == multiset(b) && Descending(a) && Descending(b) && i < |a| == |b|
    ensures a[i].coreHours <= b[i].coreHours
  {
    if a[i].coreHours > b[i].coreHours {
      // the i + 1 largest of `a` would all have to be among the i largest of `b`
      forall w ensures multiset(a[..i + 1])[w] <= multiset(b[..i])[w] {
        if w in multiset(a[..i + 1]) {
          var j :| 0 <= j < i + 1 && a[j] == w;
          assert w.coreHours > b[i].coreHours;
          assert w !in b[i..];
        }
        Split(a, i + 1, w);
        Split(b, i, w);
      }
      assert multiset(a[..i + 1]) <= multiset(b[..i]);
      MultisetSize(multiset(a[..i + 1]), multiset(b[..i]));
    }
  }

  lemma Split<T>(s: seq<T>, i: nat, x: T)
    requires i <= |s|
    ensures multiset(s)[x] == multiset(s[..i])[x] + multiset(s[i..])[x]
  {
    assert s == s[..i] + s[i..];
  }

  lemma MultisetSize<T>(a: multiset<T>, b: multiset<T>)
    requires a <= b
    ensures |a| <= |b|
  {
    assert b == a + (b - a);
  }

  function CoreSum(workloads: seq<WorkloadUsage>): real {
    if workloads == [] then 0.0 else workloads[0].coreHours + CoreSum(workloads[1..])
  }

  function GibSum(workloads: seq<WorkloadUsage>): real {
    if workloads == [] then 0.0 else workloads[0].gibHours + GibSum(workloads[1..])
  }

  function PercentSum(workloads: seq<WorkloadUsage>, total: real): int {
    if workloads == [] then 0 else Truncate(Share(workloads[0].coreHours, total)) + PercentSum(workloads[1..], total)
  }

  lemma {:induction false} PercentSumBound(workloads: seq<WorkloadUsage>, total: real)
    requires total > 0.0 && forall i :: 0 <= i < |workloads| ==> workloads[i].coreHours >= 0.0
    ensures PercentSum(workloads, total) as real <= CoreSum(workloads) / total * 100.0
  {
    if workloads == [] {
      assert 0.0 / total == 0.0;
    } else {
      PercentSumBound(workloads[1..], total);
      var x, rest := workloads[0].coreHours, CoreSum(workloads[1..]);
      assert (x + rest) / total == x / total + rest / total;
      assert Share(x, total) >= 0.0;
    }
  }

  lemma {:induction false} CoreSumAppend(a: seq<WorkloadUsage>, b: seq<WorkloadUsage>)
    ensures CoreSum(a + b) == CoreSum(a) + CoreSum(b)
  {
    if a == [] {
      assert a + b == b;
    } else {
      assert (a + b)[1..] == a[1..] + b;
      CoreSumAppend(a[1..], b);
    }
  }

  lemma CoreSumWithout(before: seq<WorkloadUsage>, w: WorkloadUsage, after: seq<WorkloadUsage>)
    ensures CoreSum(before + [w] + after) == w.coreHours + CoreSum(before + after)
  {
    CoreSumAppend(before + [w], after);
    CoreSumAppend(before, [w]);
    CoreSumAppend(before, after);
    assert CoreSum([w]) == w.coreHours;
  }

  lemma {:induction false} CoreSumPermutation(a: seq<WorkloadUsage>, b: seq<WorkloadUsage>)
    requires multiset(a) == multiset(b)
    ensures CoreSum(a) == CoreSum(b)
    decreases |a|
  {
    SameLength(a, b);
    if a != [] {
      assert a == [a[0]] + a[1..];
      var i := Metrics.Found(a[0], a[1..], b);
      CoreSumWithout(b[..i], a[0], b[i + 1..]);
      Metrics.SameRest(a[0], a[1..], b[..i], b[i + 1..]);
      CoreSumPermutation(a[1..], b[..i] + b[i + 1..]);
    }
  }

  lemma {:induction false} PrefixSum(workloads: seq<WorkloadUsage>, n: nat)
    requires n <= |workloads| && forall i :: 0 <= i < |workloads| ==> workloads[i].coreHours >= 0.0
    ensures 0.0 <= CoreSum(workloads[..n]) <= CoreSum(workloads)
  {
    if workloads != [] {
      if n == 0 {
        PrefixSum(workloads[1..], 0);
      } else {
        PrefixSum(workloads[1..], n - 1);
        assert workloads[..n][1..] == workloads[1..][..n - 1];
      }
    }
  }

  function CpuPercents(consumers: seq<TopConsumer>): int {
    if consumers == [] then 0 else consumers[0].cpuPercent + CpuPercents(consumers[1..])
  }

  lemma {:induction false} ConsumerPercents(listed: seq<WorkloadUsage>, consumers: seq<TopConsumer>, totalCore: real)
    requires |consumers| == |listed|
    requires forall i :: 0 <= i < |listed| ==>
        consumers[i].cpuPercent == Truncate(Share(listed[i].coreHours, totalCore))
    ensures CpuPercents(consumers) == PercentSum(listed, totalCore)
  {
    if listed != [] {
      ConsumerPercents(listed[1..], consumers[1..], totalCore);
    }
  }

  /** The CPU percentages a report lists never add up to more than 100 when the workloads' core-hours add up
      to no more than the total, however much each is truncated and whatever order the sort leaves. */
  lemma PercentsBounded(workloads: seq<WorkloadUsage>, sorted: seq<WorkloadUsage>, totalCore: real, totalGib: real,
                        prices: Prices)
    requires multiset(sorted) == multiset(workloads)
    requires totalCore > 0.0 && forall i :: 0 <= i < |workloads| ==> workloads[i].coreHours >= 0.0
    requires CoreSum(workloads) <= totalCore
    ensures CpuPercents(TopOf(sorted, totalCore, totalGib, prices)) <= 100
  {
    forall i | 0 <= i < |sorted| ensures sorted[i].coreHours >= 0.0 {
      assert sorted[i] in multiset(workloads);
      assert sorted[i] in workloads;
    }
    CoreSumPermutation(sorted, workloads);
    ListedBounded(sorted, Limit(|sorted|), totalCore);
    ConsumerPercents(sorted[..Limit(|sorted|)], TopOf(sorted, totalCore, totalGib, prices), totalCore);
  }

  lemma ListedBounded(sorted: seq<WorkloadUsage>, n: nat, total: real)
    requires n <= |sorted| && total > 0.0 && CoreSum(sorted) <= total
    requires forall i :: 0 <= i < |sorted| ==> sorted[i].coreHours >= 0.0
    ensures PercentSum(sorted[..n], total) <= 100
  {
    PrefixSum(sorted, n);
    PercentSumBound(sorted[..n], total);
    AtMostAll(CoreSum(sorted[..n]), total);
  }

  lemma AtMostAll(x: real, total: real)
    requires total > 0.0 && x <= total
    ensures x / total * 100.0 <= 100.0
  {
    assert x / total <= total / total;
  }

  function USDSum(workloads: seq<WorkloadUsage>, prices: Prices): real {
    if workloads == [] then 0.0
    else EstimateUSD(workloads[0].coreHours, workloads[0].gibHours, prices) + USDSum(workloads[1..], prices)
  }

  /** The estimate is additive: the workloads' estimates add up to the estimate of their sums. */
  lemma {:induction false} EstimateAdditive(workloads: seq<WorkloadUsage>, prices: Prices)
    ensures USDSum(workloads, prices) == EstimateUSD(CoreSum(workloads), GibSum(workloads), prices)
  {
    if workloads != [] {
      EstimateAdditive(workloads[1..], prices);
    }
  }

  // ------------------------------------------------------------------ suspension events

  function EventsOf(items: seq<Item>): seq<SuspensionEvent> {
    if items == [] then []
    else
      var annotations := items[0].deployment.annotations;
      if SCALED_DOWN_AT in annotations then
        [SuspensionEvent(items[0].name, annotations[SCALED_DOWN_AT],
                         if REASON in annotations then annotations[REASON] else "")]
        + EventsOf(items[1..])
      else EventsOf(items[1..])
  }

  /** The items that carry a time of scaling down, in list order. */
  function TimedItems(items: seq<Item>): seq<Item> {
    if items == [] then []
    else (if "cost.platform.io/scaled-down-at" in items[0].deployment.annotations then [items[0]] else [])
         + TimedItems(items[1..])
  }

  /** The event of one of them; a missing reason is left empty. */
  predicate EventOf(event: SuspensionEvent, item: Item) {
    var annotations := item.deployment.annotations;
    && event.workload == item.name
    && "cost.platform.io/scaled-down-at" in annotations
    && event.scaledDownAt == annotations["cost.platform.io/scaled-down-at"]
    && event.reason == if "cost.platform.io/reason" in annotations then annotations["cost.platform.io/reason"] else ""
  }

  predicate EventsMatch(events: seq<SuspensionEvent>, timed: seq<Item>) {
    |events| == |timed| && forall i :: 0 <= i < |events| ==> EventOf(events[i], timed[i])
  }

  lemma EventsMatchJoin(event: SuspensionEvent, item: Item, events: seq<SuspensionEvent>, timed: seq<Item>)
    requires EventOf(event, item) && EventsMatch(events, timed)
    ensures EventsMatch([event] + events, [item] + timed)
  {
  }

  lemma {:induction false} EventsOfTimed(items: seq<Item>)
    ensures EventsMatch(EventsOf(items), TimedItems(items))
  {
    if items != [] {
      EventsOfTimed(items[1..]);
      var events, timed := EventsOf(items[1..]), TimedItems(items[1..]);
      if SCALED_DOWN_AT in items[0].deployment.annotations {
        assert EventsOf(items) == [EventsOf(items)[0]] + events && TimedItems(items) == [items[0]] + timed;
        EventsMatchJoin(EventsOf(items)[0], items[0], events, timed);
      } else {
        assert EventsOf(items) == events && TimedItems(items) == [] + timed == timed;
      }
    }
  }

  method CollectSuspensionEvents(items: seq<Item>) returns (events: seq<SuspensionEvent>)
    ensures events == EventsOf(items)
    ensures EventsMatch(events, TimedItems(items))
  {
    EventsOfTimed(items);
    events := [];
    assert items[0..] == items;
    for i := 0 to |items|
      invariant EventsOf(items) == events + EventsOf(items[i..])
    {
      var d := items[i];
      assert items[i..][0] == d && items[i..][1..] == items[i + 1..];
      assert forall e: SuspensionEvent, tail :: events + ([e] + tail) == events + [e] + tail;
      if SCALED_DOWN_AT !in d.deployment.annotations {
        continue;
      }
      var annotations := d.deployment.annotations;
      events := events + [SuspensionEvent(d.name, annotations[SCALED_DOWN_AT],
                                          if REASON in annotations then annotations[REASON] else "")];
    }
  }

  /** The listed Deployments that the operator has scaled down, in list order. */
  function MarkedItems(items: seq<Item>): seq<Item> {
    if items == [] then []
    else (if IsScaledDownByOperator(items[0].deployment) then [items[0]] else []) + MarkedItems(items[1..])
  }

  /** One event per Deployment, with its name, the time it was scaled down and the operator's reason. */
  predicate EventsTell(events: seq<SuspensionEvent>, marked: seq<Item>) {
    && |events| == |marked|
    && forall i :: 0 <= i < |events| ==> EventTells(events[i], marked[i])
  }

  predicate EventTells(event: SuspensionEvent, item: Item) {
    && event.workload == item.name
    && "cost.platform.io/scaled-down-at" in item.deployment.annotations
    && event.scaledDownAt == item.deployment.annotations["cost.platform.io/scaled-down-at"]
    && event.reason == "idle:cpu<threshold:30m"
  }

  /** In every reachable state the events are exactly those of the marked Deployments, in order. */
  lemma {:induction false} EventsAreMarked(items: seq<Item>, origin: Objects)
    requires FaithfulItems(items, origin)
    ensures EventsTell(EventsOf(items), MarkedItems(items))
  {
    if items != [] {
      FaithfulCount(items[0].deployment, origin[items[0].name]);
      FaithfulItemsNext(items, origin);
      EventsAreMarked(items[1..], origin);
      var rest := EventsOf(items[1..]);
      if SCALED_DOWN_AT in items[0].deployment.annotations {
        var events := EventsOf(items);
        assert events == [events[0]] + rest;
        assert EventTells(events[0], items[0]);
      }
    }
  }
}
