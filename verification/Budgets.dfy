/** The NamespaceBudget object: its ledger, phase, conditions and idle list, and how one reconcile rewrites them. */
module Budgets {
  import opened Options
  import opened Decimal
  import opened Exclusions
  import opened Metrics

  /** An instant: hours since some epoch, and the calendar month (12 * year + month - 1) and day it falls on. */
  datatype Stamp = Stamp(hours: real, month: int, day: nat)

  datatype Since = Unset | At(stamp: Stamp) | Garbled

  /** The stored decimals as millionths; None for text that does not parse, such as the initial empty string. */
  datatype Accumulated = Accumulated(core: Option<int>, gib: Option<int>, since: Since)

  datatype Phase = NoPhase | OK | Warning | Exceeded | Suspended

  datatype Truth = True | False | Unknown
  datatype Condition = Condition(kind: string, status: Truth, reason: string, message: string, transition: real)

  datatype IdleWorkload = IdleWorkload(name: string, namespace: string, since: real)
  /** As stored: a zero time is None. */
  datatype IdleStatus = IdleStatus(name: string, namespace: string, since: Option<real>)

  datatype Status = Status(
    phase: Phase,
    cpu: int,
    memory: int,
    accumulated: Accumulated,
    lastReconcile: Option<real>,
    percent: int,
    idle: seq<IdleStatus>,
    conditions: seq<Condition>)

  /** Limits and window are None where their text does not parse. */
  datatype Spec = Spec(cpu: Option<real>, memory: Option<real>, window: Option<real>, exclusions: seq<Exclusion>)

  const FINALIZER := "cost.platform.io/cleanup"
  const BYTES_PER_GIB := 1073741824.0

  datatype Budget = Budget(spec: Spec, status: Status, finalizers: set<string>, deleting: bool)

  // ------------------------------------------------------------------ the ledger

  /** One step of a `%.6f` accumulator: read, add, store. */
  function Accumulate(stored: Option<int>, rate: real, elapsed: real): Option<int> {
    Some(ToMicros(FromMicros(stored.GetOr(0)) + rate * elapsed))
  }

  function Elapsed(lastReconcile: Option<real>, time: real): real {
    time - lastReconcile.GetOr(time)
  }

  function GiB(samples: seq<Sample>): real {
    Sum(Values(samples)) / BYTES_PER_GIB
  }

  /** Step 5: this tick's consumption added to the running totals. */
  function Observed(st: Status, cpu: seq<Sample>, memory: seq<Sample>, time: real): Status {
    var elapsed := Elapsed(st.lastReconcile, time);
    st.(accumulated := st.accumulated.(core := Accumulate(st.accumulated.core, Sum(Values(cpu)), elapsed),
                                       gib := Accumulate(st.accumulated.gib, GiB(memory), elapsed)),
        lastReconcile := Some(time),
        cpu := ToMicros(Sum(Values(cpu))),
        memory := ToMicros(GiB(memory)))
  }

  function Percentage(stored: Option<int>, limit: Option<real>): real {
    if limit.GetOr(0.0) > 0.0 then FromMicros(stored.GetOr(0)) / limit.value * 100.0 else 0.0
  }

  function Max(x: real, y: real): real {
    if x >= y then x else y
  }

  function BudgetPercent(spec: Spec, accumulated: Accumulated): real {
    Max(Percentage(accumulated.core, spec.cpu), Percentage(accumulated.gib, spec.memory))
  }

  function DeterminePhase(percent: real): Phase {
    if percent >= 120.0 then Suspended
    else if percent >= 100.0 then Exceeded
    else if percent >= 80.0 then Warning
    else OK
  }

  function Rank(phase: Phase): nat {
    match phase
    case NoPhase => 0
    case OK => 1
    case Warning => 2
    case Exceeded => 3
    case Suspended => 4
  }

  /** Go's conversion of a float to an int: toward zero. */
  function Truncate(x: real): int {
    if x >= 0.0 then x.Floor else -(-x).Floor
  }

  /** `n` is `x` without its fraction. */
  predicate Truncated(n: int, x: real) {
    if x >= 0.0 then n as real <= x < n as real + 1.0 else n as real - 1.0 < x <= n as real
  }

  lemma TruncateIs(x: real)
    ensures Truncated(Truncate(x), x)
  {
    if x < 0.0 {
      assert (-x).Floor as real <= -x < (-x).Floor as real + 1.0;
    }
  }

  lemma PhaseMonotone(x: real, y: real)
    requires x <= y
    ensures Rank(DeterminePhase(x)) <= Rank(DeterminePhase(y))
  {
  }

  /** The phase of the larger dimension is the higher of the two dimensions' phases. */
  lemma PhaseOfMax(x: real, y: real)
    ensures Rank(DeterminePhase(Max(x, y)))
         == if Rank(DeterminePhase(x)) >= Rank(DeterminePhase(y)) then Rank(DeterminePhase(x))
             else Rank(DeterminePhase(y))
  {
  }

  /** A dimension with a positive limit has used at least this fraction of it. */
  predicate Reached(stored: Option<int>, limit: Option<real>, fraction: real) {
    limit.GetOr(0.0) > 0.0 && FromMicros(stored.GetOr(0)) >= fraction * limit.value
  }

  predicate EitherReached(spec: Spec, accumulated: Accumulated, fraction: real) {
    Reached(accumulated.core, spec.cpu, fraction) || Reached(accumulated.gib, spec.memory, fraction)
  }

  lemma PercentageReaches(stored: Option<int>, limit: Option<real>, percent: real)
    requires percent > 0.0
    ensures Percentage(stored, limit) >= percent <==> Reached(stored, limit, percent / 100.0)
  {
    if limit.GetOr(0.0) > 0.0 {
      QuotientAtLeast(FromMicros(stored.GetOr(0)), limit.value, percent / 100.0);
    }
  }

  lemma QuotientAtLeast(x: real, limit: real, fraction: real)
    requires limit > 0.0
    ensures x / limit >= fraction <==> x >= fraction * limit
  {
    var q := x / limit;
    assert q * limit == x;
    if q >= fraction {
      assert (q - fraction) * limit >= 0.0;
    } else {
      assert (fraction - q) * limit > 0.0;
    }
  }

  /** The phase in terms of the limits: Warning, Exceeded and Suspended mean that CPU or memory has used 80, 100
      and 120 hundredths of its own limit. A dimension without a positive limit never counts. */
  lemma PhaseMeaning(spec: Spec, accumulated: Accumulated)
    ensures var rank := Rank(DeterminePhase(BudgetPercent(spec, accumulated)));
            && (rank >= Rank(Warning) <==> EitherReached(spec, accumulated, 0.8))
            && (rank >= Rank(Exceeded) <==> EitherReached(spec, accumulated, 1.0))
            && (rank >= Rank(Suspended) <==> EitherReached(spec, accumulated, 1.2))
  {
    PercentageReaches(accumulated.core, spec.cpu, 80.0);
    PercentageReaches(accumulated.core, spec.cpu, 100.0);
    PercentageReaches(accumulated.core, spec.cpu, 120.0);
    PercentageReaches(accumulated.gib, spec.memory, 80.0);
    PercentageReaches(accumulated.gib, spec.memory, 100.0);
    PercentageReaches(accumulated.gib, spec.memory, 120.0);
  }

  /** Thresholds are compared on the real percentage for the phase and on the truncated one for the conditions;
      at every whole threshold above zero the two agree. */
  lemma TruncateThreshold(x: real, threshold: int)
    requires threshold > 0
    ensures Truncate(x) >= threshold <==> x >= threshold as real
  {
    if x >= 0.0 {
      assert x.Floor as real <= x < x.Floor as real + 1.0;
    } else {
      assert (-x).Floor as real >= 0.0 || (-x).Floor >= 0;
    }
  }

  // ------------------------------------------------------------------ conditions

  const USAGE_WARNING := "UsageWarning"
  const BUDGET_EXCEEDED := "BudgetExceeded"

  function ConditionStatus(b: bool): Truth {
    if b then True else False
  }

  function UsageMessage(percent: int): string {
    "Budget usage at " + FormatInt(percent) + "%"
  }

  function Warned(percent: int, time: real): Condition {
    Condition(USAGE_WARNING, ConditionStatus(percent >= 80), "BudgetThresholdReached", UsageMessage(percent), time)
  }

  function Exceeding(percent: int, time: real): Condition {
    Condition(BUDGET_EXCEEDED, ConditionStatus(percent >= 100), "MonthlyBudgetExceeded", UsageMessage(percent), time)
  }

  /** Replaces the first condition of the same type, keeping its transition time if its status is the same. */
  function WithCondition(conditions: seq<Condition>, new_: Condition): seq<Condition> {
    if conditions == [] then [new_]
    else if conditions[0].kind == new_.kind then
      [if conditions[0].status == new_.status then new_.(transition := conditions[0].transition) else new_]
          + conditions[1..]
    else [conditions[0]] + WithCondition(conditions[1..], new_)
  }

  lemma {:induction false} WithConditionAt(conditions: seq<Condition>, i: nat, new_: Condition)
    requires i < |conditions| && conditions[i].kind == new_.kind
    requires forall j :: 0 <= j < i ==> conditions[j].kind != new_.kind
    ensures WithCondition(conditions, new_) == conditions[i := Dated(conditions[i], new_)]
  {
    if i > 0 {
      WithConditionAt(conditions[1..], i - 1, new_);
    }
  }

  lemma {:induction false} WithConditionNew(conditions: seq<Condition>, new_: Condition)
    requires forall j :: 0 <= j < |conditions| ==> conditions[j].kind != new_.kind
    ensures WithCondition(conditions, new_) == conditions + [new_]
  {
    if conditions != [] {
      WithConditionNew(conditions[1..], new_);
    }
  }

  method SetCondition(conditions: seq<Condition>, condition: Condition) returns (updated: seq<Condition>)
    ensures updated == WithCondition(conditions, condition)
  {
    for i := 0 to |conditions|
      invariant forall j :: 0 <= j < i ==> conditions[j].kind != condition.kind
    {
      var existing := conditions[i];
      if existing.kind == condition.kind {
        var new_ := condition;
        if existing.status == new_.status {
          new_ := new_.(transition := existing.transition);
        }
        WithConditionAt(conditions, i, condition);
        updated := conditions[i := new_];
        return;
      }
    }
    WithConditionNew(conditions, condition);
    updated := conditions + [condition];
  }

  function WithConditions(conditions: seq<Condition>, percent: int, time: real): seq<Condition> {
    WithCondition(WithCondition(conditions, Warned(percent, time)), Exceeding(percent, time))
  }

  /** The status a reconcile asks the server to store. */
  function Concluded(st: Status, phase: Phase, percent: int, time: real): Status {
    st.(phase := phase, percent := percent, conditions := WithConditions(st.conditions, percent, time))
  }

  predicate UniqueKinds(conditions: seq<Condition>) {
    forall i, j :: 0 <= i < j < |conditions| ==> conditions[i].kind != conditions[j].kind
  }

  /** Types stay unique, other types are not touched, and the one asked for is there with the status asked for. */
  lemma {:induction false} WithConditionKeeps(conditions: seq<Condition>, new_: Condition)
    requires UniqueKinds(conditions)
    ensures UniqueKinds(WithCondition(conditions, new_))
    ensures forall c: Condition :: c.kind != new_.kind ==> (c in WithCondition(conditions, new_) <==> c in conditions)
    ensures forall c: Condition :: c in WithCondition(conditions, new_) && c.kind == new_.kind ==>
        c.status == new_.status
    ensures exists c: Condition :: c in WithCondition(conditions, new_) && c.kind == new_.kind
  {
    if conditions == [] {
      assert new_ in WithCondition(conditions, new_);
    } else if conditions[0].kind == new_.kind {
      var updated := WithCondition(conditions, new_);
      assert updated[0] in updated && updated[0].kind == new_.kind;
      assert forall c :: c in updated <==> c == updated[0] || c in updated[1..];
      assert forall c :: c in conditions <==> c == conditions[0] || c in conditions[1..];
    } else {
      WithConditionKeeps(conditions[1..], new_);
      var updated := WithCondition(conditions, new_);
      var c :| c in updated[1..] && c.kind == new_.kind;
      assert forall c :: c in updated <==> c == updated[0] || c in updated[1..];
      assert forall c :: c in conditions <==> c == conditions[0] || c in conditions[1..];
      forall j | 0 < j < |updated| ensures updated[0].kind != updated[j].kind {
        assert updated[j] in updated[1..];
        if updated[j].kind != new_.kind {
          assert updated[j] in conditions[1..];
        }
      }
    }
  }

  /** One persisted update as the conditions see it. */
  datatype Update = Update(percent: int, time: real)

  function Conditions(updates: seq<Update>): seq<Condition> {
    if updates == [] then []
    else
      var last := updates[|updates| - 1];
      WithConditions(Conditions(updates[..|updates| - 1]), last.percent, last.time)
  }

  /** Where the current unbroken stretch of one truth value of `percent >= threshold` began. */
  function StretchStart(updates: seq<Update>, threshold: int): (start: nat)
    requires updates != []
    ensures start < |updates|
  {
    var n := |updates|;
    if n > 1 && (updates[n - 2].percent >= threshold) == (updates[n - 1].percent >= threshold)
    then StretchStart(updates[..n - 1], threshold) else n - 1
  }

  lemma {:induction false} StretchStartIs(updates: seq<Update>, threshold: int)
    requires updates != []
    ensures var j, n := StretchStart(updates, threshold), |updates|;
            && (forall i :: j <= i < n ==> (updates[i].percent >= threshold) == (updates[n - 1].percent >= threshold))
            && (j > 0 ==> (updates[j - 1].percent >= threshold) != (updates[n - 1].percent >= threshold))
  {
    var n := |updates|;
    if n > 1 && (updates[n - 2].percent >= threshold) == (updates[n - 1].percent >= threshold) {
      StretchStartIs(updates[..n - 1], threshold);
    }
  }

  function Dated(existing: Condition, new_: Condition): Condition {
    if existing.status == new_.status then new_.(transition := existing.transition) else new_
  }

  lemma BothConditions(w: Condition, e: Condition, percent: int, time: real)
    requires w.kind == USAGE_WARNING && e.kind == BUDGET_EXCEEDED
    ensures WithConditions([], percent, time) == [Warned(percent, time), Exceeding(percent, time)]
    ensures WithConditions([w, e], percent, time)
        == [Dated(w, Warned(percent, time)), Dated(e, Exceeding(percent, time))]
  {
    assert USAGE_WARNING[0] == 'U' && BUDGET_EXCEEDED[0] == 'B';
    var usage, exceeding := Warned(percent, time), Exceeding(percent, time);
    assert WithCondition([], exceeding) == [exceeding];
    assert [usage][1..] == [];
    assert WithCondition([usage], exceeding) == [usage] + WithCondition([], exceeding);
    var warned := Dated(w, usage);
    assert [w, e][1..] == [e] && [warned, e][1..] == [e] && [e][1..] == [];
    assert WithCondition([w, e], usage) == [warned] + [e];
    assert WithCondition([e], exceeding) == [Dated(e, exceeding)];
    assert WithCondition([warned, e], exceeding) == [warned] + WithCondition([e], exceeding);
  }

  /** After any sequence of persisted updates there are exactly the two conditions, each true to the last percentage,
      and each dated at the first update of its current unbroken stretch. */
  lemma {:induction false} ConditionsDated(updates: seq<Update>)
    requires updates != []
    ensures var last := updates[|updates| - 1];
            Conditions(updates) == [Warned(last.percent, updates[StretchStart(updates, 80)].time),
                                    Exceeding(last.percent, updates[StretchStart(updates, 100)].time)]
  {
    var n := |updates|;
    var last, before := updates[n - 1], updates[..n - 1];
    if n > 1 {
      ConditionsDated(before);
      var c := Conditions(before);
      BothConditions(c[0], c[1], last.percent, last.time);
    } else {
      var none := Warned(0, 0.0);
      BothConditions(none, Exceeding(0, 0.0), last.percent, last.time);
    }
  }

  // ------------------------------------------------------------------ idle workloads

  function Key(namespace: string, name: string): string {
    namespace + "/" + name
  }

  /** Since a namespace holds no slash, keys tell workloads apart. */
  lemma {:induction false} KeyInjective(namespace: string, name: string, namespace': string, name': string)
    requires '/' !in namespace && '/' !in namespace'
    requires Key(namespace, name) == Key(namespace', name')
    ensures namespace == namespace' && name == name'
  {
    var key, key' := Key(namespace, name), Key(namespace', name');
    if namespace != "" && namespace' != "" {
      assert key[1..] == Key(namespace[1..], name) && key'[1..] == Key(namespace'[1..], name');
      KeyInjective(namespace[1..], name, namespace'[1..], name');
      assert namespace == [key[0]] + namespace[1..] && namespace' == [key'[0]] + namespace'[1..];
    } else {
      assert key[0] == key'[0];
      assert namespace == "" && namespace' == "";
      assert key[1..] == name && key'[1..] == name';
    }
  }

  /** The time last stored under a key; None if there is none or it is zero. */
  function KnownSince(previous: seq<IdleStatus>, key: string): Option<real> {
    if previous == [] then None
    else
      var last := previous[|previous| - 1];
      if Key(last.namespace, last.name) == key then last.since else KnownSince(previous[..|previous| - 1], key)
  }

  function IdleEntry(w: IdleWorkload, previous: seq<IdleStatus>): IdleStatus {
    IdleStatus(w.name, w.namespace, Some(KnownSince(previous, Key(w.namespace, w.name)).GetOr(w.since)))
  }

  function IdleList(workloads: seq<IdleWorkload>, previous: seq<IdleStatus>): seq<IdleStatus> {
    seq(|workloads|, i requires 0 <= i < |workloads| => IdleEntry(workloads[i], previous))
  }

  method ToIdleWorkloadStatus(workloads: seq<IdleWorkload>, previous: seq<IdleStatus>) returns (result: seq<IdleStatus>)
    ensures result == IdleList(workloads, previous)
  {
    var prevMap: map<string, Option<real>> := map[];
    for i := 0 to |previous|
      invariant forall key :: KnownSince(previous[..i], key) == if key in prevMap then prevMap[key] else None
    {
      var p := previous[i];
      assert previous[..i + 1][..i] == previous[..i];
      prevMap := prevMap[Key(p.namespace, p.name) := p.since];
    }
    assert previous[..|previous|] == previous;

    result := [];
    for i := 0 to |workloads|
      invariant result == IdleList(workloads[..i], previous)
    {
      var w := workloads[i];
      var key := Key(w.namespace, w.name);
      var idleSince := Some(w.since);
      if key in prevMap && prevMap[key].Some? {
        idleSince := prevMap[key];
      }
      result := result + [IdleStatus(w.name, w.namespace, idleSince)];
    }
    assert workloads[..|workloads|] == workloads;
  }

  predicate DistinctKeys(workloads: seq<IdleWorkload>) {
    forall i, j :: 0 <= i < j < |workloads| ==>
      Key(workloads[i].namespace, workloads[i].name) != Key(workloads[j].namespace, workloads[j].name)
  }

  /** Where a key stands in a detection. */
  predicate Listed(workloads: seq<IdleWorkload>, key: string) {
    exists i :: 0 <= i < |workloads| && Key(workloads[i].namespace, workloads[i].name) == key
  }

  function DetectedSince(workloads: seq<IdleWorkload>, key: string): real {
    if workloads == [] then 0.0
    else if Key(workloads[0].namespace, workloads[0].name) == key then workloads[0].since
    else DetectedSince(workloads[1..], key)
  }

  /** The window start of the first detection of the key's current unbroken presence. */
  function StreakSince(detections: seq<seq<IdleWorkload>>, key: string): real
    requires detections != []
  {
    var n := |detections|;
    if n > 1 && Listed(detections[n - 2], key) then StreakSince(detections[..n - 1], key)
    else DetectedSince(detections[n - 1], key)
  }

  function IdleAfter(detections: seq<seq<IdleWorkload>>): seq<IdleStatus> {
    if detections == [] then []
    else IdleList(detections[|detections| - 1], IdleAfter(detections[..|detections| - 1]))
  }

  lemma {:induction false} DetectedSinceIs(workloads: seq<IdleWorkload>, i: nat)
    requires DistinctKeys(workloads) && i < |workloads|
    ensures DetectedSince(workloads, Key(workloads[i].namespace, workloads[i].name)) == workloads[i].since
  {
    if i > 0 {
      assert workloads[1..][i - 1] == workloads[i];
      DetectedSinceIs(workloads[1..], i - 1);
    }
  }

  lemma {:induction false} KnownSinceIs(idle: seq<IdleStatus>, key: string)
    ensures KnownSince(idle, key).Some? ==>
        exists i :: 0 <= i < |idle| && Key(idle[i].namespace, idle[i].name) == key
            && idle[i].since == KnownSince(idle, key)
    ensures KnownSince(idle, key).None? ==>
        forall i :: 0 <= i < |idle| && Key(idle[i].namespace, idle[i].name) == key && idle[i].since.Some? ==>
              exists j :: i < j < |idle| && Key(idle[j].namespace, idle[j].name) == key
  {
    if idle != [] {
      var n := |idle| - 1;
      KnownSinceIs(idle[..n], key);
      if Key(idle[n].namespace, idle[n].name) != key {
        if KnownSince(idle, key).Some? {
          var i :| 0 <= i < n && Key(idle[..n][i].namespace, idle[..n][i].name) == key
              && idle[..n][i].since == KnownSince(idle, key);
          assert Key(idle[i].namespace, idle[i].name) == key;
        } else {
          forall i | 0 <= i < |idle| && Key(idle[i].namespace, idle[i].name) == key && idle[i].since.Some?
            ensures exists j :: i < j < |idle| && Key(idle[j].namespace, idle[j].name) == key
          {
            assert Key(idle[..n][i].namespace, idle[..n][i].name) == key;
            var j :| i < j < n && Key(idle[..n][j].namespace, idle[..n][j].name) == key;
            assert Key(idle[j].namespace, idle[j].name) == key;
          }
        }
      }
    }
  }

  /** Over any sequence of successful detections the stored list follows the last one in names and order,
      and each entry is dated at the first detection of its unbroken presence. */
  lemma {:induction false} IdleStreaks(detections: seq<seq<IdleWorkload>>)
    requires detections != [] && forall k :: 0 <= k < |detections| ==> DistinctKeys(detections[k])
    ensures var last, idle := detections[|detections| - 1], IdleAfter(detections);
            && |idle| == |last|
            && forall i :: 0 <= i < |last| ==>
                 idle[i] == IdleStatus(last[i].name, last[i].namespace,
                                       Some(StreakSince(detections, Key(last[i].namespace, last[i].name))))
  {
    var n := |detections|;
    var last, before := detections[n - 1], detections[..n - 1];
    var previous := IdleAfter(before);
    if n > 1 {
      IdleStreaks(before);
    }
    forall i | 0 <= i < |last|
      ensures IdleAfter(detections)[i] == IdleStatus(last[i].name, last[i].namespace,
                                                     Some(StreakSince(detections,
                                                                      Key(last[i].namespace, last[i].name))))
    {
      var key := Key(last[i].namespace, last[i].name);
      DetectedSinceIs(last, i);
      KnownSinceIs(previous, key);
      if n > 1 {
        var prior := detections[n - 2];
        assert before[|before| - 1] == prior;
        if Listed(prior, key) {
          var j :| 0 <= j < |prior| && Key(prior[j].namespace, prior[j].name) == key;
          assert Key(previous[j].namespace, previous[j].name) == key && previous[j].since.Some?;
          assert forall m :: 0 <= m < |previous| && Key(previous[m].namespace, previous[m].name) == key ==>
                   Key(prior[m].namespace, prior[m].name) == key;
        } else {
          assert forall m :: 0 <= m < |previous| ==>
              Key(previous[m].namespace, previous[m].name) == Key(prior[m].namespace, prior[m].name);
        }
      }
    }
  }
}
