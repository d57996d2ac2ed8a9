/** What a reconcile achieves when its calls go through, said of the cluster, the stored status and the notification
    alone. Names, thresholds and amounts are spelled out. */
module Outcomes {
  import opened Options
  import opened Decimal
  import opened Deployments
  import opened Exclusions
  import opened ActionSpec
  import opened Recovery
  import opened Suspension
  import opened Budgets
  import opened Detector
  import opened ReconcileSpec
  import opened Guardian
  import opened Ledger
  import opened Books

  // ------------------------------------------------------------------ what it is about

  predicate Marked(d: Deployment) {
    && "cost.platform.io/scaled-down-by" in d.annotations
    && d.annotations["cost.platform.io/scaled-down-by"] == "namespace-cost-governor"
  }

  predicate Down(d: Deployment) {
    Marked(d) || d.replicas == Some(0)
  }

  const OWN_KEYS := {"cost.platform.io/scaled-down-by", "cost.platform.io/scaled-down-at",
                     "cost.platform.io/original-replicas", "cost.platform.io/reason"}

  /** `d'` is `d` scaled down: at zero, its count recorded, all else as it was. */
  predicate ScaledDownTo(d: Deployment, d': Deployment) {
    && d'.replicas == Some(0) && d'.labels == d.labels && Marked(d') && OWN_KEYS <= d'.annotations.Keys
    && d'.annotations["cost.platform.io/original-replicas"]
        == FormatInt(if d.replicas.None? then 1 else d.replicas.value)
    && d'.annotations["cost.platform.io/reason"] == "idle:cpu<threshold:30m"
    && d'.annotations - OWN_KEYS == d.annotations - OWN_KEYS
  }

  /** A Deployment already down is left as it is. */
  predicate BroughtDown(d: Deployment, d': Deployment) {
    if Down(d) then d' == d else ScaledDownTo(d, d')
  }

  lemma SuspendedMeans(d: Deployment, d': Deployment)
    requires Suspension.Suspended(d, d')
    ensures BroughtDown(d, d')
  {
    assert COST_KEYS == OWN_KEYS;
    if !Down(d) {
      var stamp := d'.annotations[SCALED_DOWN_AT];
      assert d' == Downed(d, stamp);
      assert d'.annotations - OWN_KEYS == d.annotations - OWN_KEYS;
    }
  }

  predicate LeftAlone(name: string, d: Deployment, exclusions: seq<Exclusion>) {
    exists i :: 0 <= i < |exclusions| && Spares(exclusions[i], name, d)
  }

  /** By its name, or by a selector that converts and matches. */
  predicate Spares(ex: Exclusion, name: string, d: Deployment) {
    (ex.name != "" && ex.name == name)
    || (ex.selector.Some? && ex.selector.value.Selector? && ex.selector.value.matches(d.labels))
  }

  lemma LeftAloneMeans(name: string, d: Deployment, exclusions: seq<Exclusion>)
    ensures LeftAlone(name, d, exclusions) <==> Excluded(name, d.labels, exclusions)
  {
    if NameExcluded(name, exclusions) {
      var i :| 0 <= i < |exclusions| && NamedBy(name, exclusions[i]);
      assert Spares(exclusions[i], name, d);
    } else if LabelExcluded(d.labels, exclusions) {
      var i :| 0 <= i < |exclusions| && SelectedBy(d.labels, exclusions[i]);
      assert Spares(exclusions[i], name, d);
    }
    if i :| 0 <= i < |exclusions| && Spares(exclusions[i], name, d) {
      assert NamedBy(name, exclusions[i]) || SelectedBy(d.labels, exclusions[i]);
    }
  }

  /** CPU or memory has used at least this fraction of its own positive limit; amounts are millionths. */
  predicate AtLeast(spec: Spec, acc: Accumulated, fraction: real) {
    || (spec.cpu.Some? && spec.cpu.value > 0.0 && acc.core.GetOr(0) as real / 1000000.0 >= fraction * spec.cpu.value)
    || (spec.memory.Some? && spec.memory.value > 0.0
        && acc.gib.GetOr(0) as real / 1000000.0 >= fraction * spec.memory.value)
  }

  lemma PhaseIs(spec: Spec, acc: Accumulated)
    ensures DeterminePhase(BudgetPercent(spec, acc))
         == if AtLeast(spec, acc, 1.2) then Budgets.Suspended
            else if AtLeast(spec, acc, 1.0) then Exceeded
            else if AtLeast(spec, acc, 0.8) then Warning
            else OK
  {
    PhaseMeaning(spec, acc);
    ReachedMeans(spec, acc, 0.8);
    ReachedMeans(spec, acc, 1.0);
    ReachedMeans(spec, acc, 1.2);
  }

  lemma ReachedMeans(spec: Spec, acc: Accumulated, fraction: real)
    ensures EitherReached(spec, acc, fraction) <==> AtLeast(spec, acc, fraction)
  {
  }

  predicate Found(idle: Option<seq<IdleWorkload>>, name: string) {
    idle.Some? && exists i :: 0 <= i < |idle.value| && idle.value[i].name == name
  }

  // ------------------------------------------------------------------ the idle filter

  predicate Open(objects: Objects, x: IdleWorkload, exclusions: seq<Exclusion>) {
    x.name in objects && !LeftAlone(x.name, objects[x.name], exclusions)
  }

  /** Without faults the filter keeps every workload that is there and not excluded, in the order found,
      and no other. */
  lemma {:induction false} FilterKeeps(w: World, idle: seq<IdleWorkload>, exclusions: seq<Exclusion>)
    requires w.script == []
    ensures var (w', kept) := FilterIdle(w, idle, exclusions);
            && w' == w && Subsequence(kept, idle)
            && forall x :: x in kept <==> x in idle && Open(w.objects, x, exclusions)
    decreases |idle|
  {
    if idle != [] {
      assert w.Seen() == w.objects && w.Called() == w;
      FilterKeeps(w, idle[1..], exclusions);
      var x, rest := idle[0], FilterIdle(w, idle[1..], exclusions).1;
      if x.name in w.objects {
        LeftAloneMeans(x.name, w.objects[x.name], exclusions);
      }
      var kept := FilterIdle(w, idle, exclusions).1;
      assert kept == if Open(w.objects, x, exclusions) then [x] + rest else rest;
      assert idle == [x] + idle[1..];
      if Open(w.objects, x, exclusions) {
        assert ([x] + rest)[1..] == rest;
      }
    }
  }

  // ------------------------------------------------------------------ steps 9 and 10

  predicate Named(workloads: seq<IdleWorkload>, name: string) {
    exists i :: 0 <= i < |workloads| && workloads[i].name == name
  }

  lemma {:induction false} ScaleIdleReportsAll(w: World, names: seq<string>, clock: Clock)
    requires w.script == [] && forall name :: name in names ==> name in w.objects
    ensures ScaleIdle(w, names, clock).1 == names
    decreases |names|
  {
    if names != [] {
      ScaleDownDone(w, names[0], clock);
      ScaleIdleReportsAll(ScaleDown(w, names[0], clock).0, names[1..], clock);
    }
  }

  lemma NamesOfNamed(workloads: seq<IdleWorkload>)
    ensures forall name :: name in NamesOf(workloads) <==> Named(workloads, name)
    ensures DistinctNames(workloads) ==> Distinct(NamesOf(workloads))
  {
    var names := NamesOf(workloads);
    forall name | Named(workloads, name) ensures name in names {
      var i :| 0 <= i < |workloads| && workloads[i].name == name;
      assert names[i] == name;
    }
  }

  /** Step 9 without faults: the actionable workloads are brought down and reported, whether or not they were down. */
  lemma ScaleIdleBrings(w: World, actionable: seq<IdleWorkload>, clock: Clock)
    requires w.script == [] && DistinctNames(actionable) && forall x :: x in actionable ==> x.name in w.objects
    ensures var (w', affected) := ScaleIdle(w, NamesOf(actionable), clock);
            && w'.script == [] && w'.objects.Keys == w.objects.Keys && affected == NamesOf(actionable)
            && forall name :: name in w.objects ==>
                 if Named(actionable, name) then Suspension.Suspended(w.objects[name], w'.objects[name])
                 else w'.objects[name] == w.objects[name]
  {
    NamesOfNamed(actionable);
    forall name | name in NamesOf(actionable) ensures name in w.objects {
      var i :| 0 <= i < |actionable| && actionable[i].name == name;
      assert actionable[i] in actionable;
    }
    ScaleIdleReportsAll(w, NamesOf(actionable), clock);
    ScaleIdleDone(w, NamesOf(actionable), clock);
  }

  /** Step 10 without faults: every Deployment not excluded is brought down, and those that were not down
      are reported. */
  lemma SuspendAllBrings(w: World, order: seq<string>, exclusions: seq<Exclusion>, clock: Clock)
    requires w.script == [] && Lists(order, w.objects)
    ensures var (w', names) := SuspendAll(w, order, exclusions, clock);
            && w'.objects.Keys == w.objects.Keys && names.Some? && Distinct(names.value)
            && (forall name :: name in w.objects ==>
                  if LeftAlone(name, w.objects[name], exclusions) then w'.objects[name] == w.objects[name]
                  else Suspension.Suspended(w.objects[name], w'.objects[name]))
            && forall name :: name in names.value <==>
                 name in w.objects && !LeftAlone(name, w.objects[name], exclusions) && !Down(w.objects[name])
  {
    var (w', names) := SuspendAll(w, order, exclusions, clock);
    SuspendAllDone(w, order, exclusions, clock);
    assert w.Seen() == w.objects && w.Called() == w;
    var items := Items(w.objects, order);
    ItemsCurrent(w.objects, order);
    SuspendEachNames(w, items, exclusions, clock);
    forall name | name in w.objects
      ensures LeftAlone(name, w.objects[name], exclusions) <==> Excluded(name, w.objects[name].labels, exclusions)
    {
      LeftAloneMeans(name, w.objects[name], exclusions);
    }
    forall name
      ensures name in names.value
         <==> name in w.objects && !LeftAlone(name, w.objects[name], exclusions) && !Down(w.objects[name])
    {
      if name in w.objects {
        assert Item(name, w.objects[name]) in items;
        var i :| 0 <= i < |items| && items[i] == Item(name, w.objects[name]);
        assert Spared(items[i], exclusions)
          <==> LeftAlone(name, w.objects[name], exclusions) || Down(w.objects[name]);
      }
    }
  }

  // ------------------------------------------------------------------ a reconcile of a live budget

  /** The budget is read, is not being deleted, carries the finalizer, and both usage queries succeed. */
  predicate Live(s: System, t: Tick) {
    && t.readable && s.budget.Some? && !s.budget.value.deleting
    && "cost.platform.io/cleanup" in s.budget.value.finalizers && t.cpu.Some? && t.memory.Some?
  }

  /** The ledger as it comes out of the rollover. */
  function Ledger0(cfg: Config, s: System, t: Tick): Status
    requires s.budget.Some?
  {
    RollOver(cfg, s.(world := s.world.(script := t.script)), s.budget.value.status, t).1
  }

  lemma LiveObserves(cfg: Config, s: System, t: Tick)
    requires Live(s, t)
    ensures var s1 := RollOver(cfg, s.(world := s.world.(script := t.script)), s.budget.value.status, t).0;
            && Reconcile(cfg, s, t) == Observe(cfg, s1, s.budget.value, Ledger0(cfg, s, t), t)
            && s1.budget == s.budget && s1.sent == s.sent && s1.world.objects == s.world.objects
            && (t.script == [] ==> s1.world.script == [])
    ensures var st := Ledger0(cfg, s, t);
            st.phase == s.budget.value.status.phase && st.idle == s.budget.value.status.idle
  {
    assert FINALIZER == "cost.platform.io/cleanup";
  }

  /** What `Observe` stores, and what it hands on to the steps after. */
  lemma ObserveStores(cfg: Config, s: System, b: Budget, st: Status, t: Tick)
    requires t.cpu.Some? && t.memory.Some? && b.spec.window.Some? && Acknowledged(t.attempts, ATTEMPTS)
    ensures var s' := Observe(cfg, s, b, st, t).0;
            var acc := Measured(st, t).accumulated;
            var phase := DeterminePhase(BudgetPercent(b.spec, acc));
            var (w1, actionable) := Detect(s.world, phase, b.spec, t);
            var (w2, affected) := Act(w1, phase, actionable.GetOr([]), b.spec, t);
            && s'.budget.Some? && s'.world == w2
            && var st' := s'.budget.value.status;
               && st'.accumulated == acc && st'.phase == phase && st'.percent == Truncate(BudgetPercent(b.spec, acc))
               && st'.idle == (if actionable.None? then st.idle else IdleList(actionable.value, st.idle))
               && s'.sent == if b.status.phase != phase && cfg.webhook && !t.crash
                             then s.sent + [Notification(phase, st'.percent, affected)] else s.sent
  {
    var acc := Measured(st, t).accumulated;
    var phase := DeterminePhase(BudgetPercent(b.spec, acc));
    var (w1, actionable) := Detect(s.world, phase, b.spec, t);
    var desired := Concluded(WithIdle(Measured(st, t), actionable), phase, Truncate(BudgetPercent(b.spec, acc)),
                             t.written);
    PersistAcknowledged(b, desired, t.attempts, ATTEMPTS);
    PersistKeeps(b, desired, t.attempts, ATTEMPTS);
  }

  /** Which Deployments are brought down, by the ledger as stored: from 1.2 of a limit all, from 1.0 the idle ones,
      and never one that is excluded. */
  predicate Enforced(before: Objects, after: Objects, acc: Accumulated, spec: Spec, idle: Option<seq<IdleWorkload>>) {
    && after.Keys == before.Keys
    && forall name :: name in before ==>
         if !LeftAlone(name, before[name], spec.exclusions)
            && (AtLeast(spec, acc, 1.2) || (AtLeast(spec, acc, 1.0) && Found(idle, name)))
         then BroughtDown(before[name], after[name])
         else after[name] == before[name]
  }

  /** The names reported: each once, the idle workloads even if they were down already, and of the others
      those that were not. */
  ghost predicate Reported(affected: seq<string>, before: Objects, acc: Accumulated, spec: Spec,
                           idle: Option<seq<IdleWorkload>>) {
    && Distinct(affected)
    && forall name :: name in affected <==>
         && name in before && !LeftAlone(name, before[name], spec.exclusions)
         && ((AtLeast(spec, acc, 1.0) && Found(idle, name)) || (AtLeast(spec, acc, 1.2) && !Down(before[name])))
  }

  lemma DetectFinds(w: World, acc: Accumulated, spec: Spec, t: Tick)
    requires w.script == []
    ensures var (w1, actionable) := Detect(w, DeterminePhase(BudgetPercent(spec, acc)), spec, t);
            && w1 == w && (actionable.Some? <==> AtLeast(spec, acc, 1.0) && t.idle.Some?)
            && (actionable.Some? ==> Subsequence(actionable.value, t.idle.value))
            && (actionable.Some? ==>
                  forall x :: x in actionable.value <==> x in t.idle.value && Open(w.objects, x, spec.exclusions))
  {
    PhaseIs(spec, acc);
    OneFirst(spec, acc);
    if t.idle.Some? {
      FilterKeeps(w, t.idle.value, spec.exclusions);
    }
  }

  lemma OneFirst(spec: Spec, acc: Accumulated)
    ensures AtLeast(spec, acc, 1.2) ==> AtLeast(spec, acc, 1.0)
  {
  }

  /** The actionable workloads, and no others, are those found that are there and not excluded. */
  ghost predicate Chosen(actionable: seq<IdleWorkload>, objects: Objects, acc: Accumulated, spec: Spec,
                         idle: Option<seq<IdleWorkload>>) {
    && DistinctNames(actionable)
    && (forall x :: x in actionable ==> x.name in objects && !LeftAlone(x.name, objects[x.name], spec.exclusions))
    && forall name :: Named(actionable, name) <==>
         && AtLeast(spec, acc, 1.0) && Found(idle, name)
         && name in objects && !LeftAlone(name, objects[name], spec.exclusions)
  }

  lemma DetectChooses(w: World, acc: Accumulated, spec: Spec, t: Tick)
    requires w.script == [] && (t.idle.Some? ==> DistinctNames(t.idle.value))
    ensures var (w1, actionable) := Detect(w, DeterminePhase(BudgetPercent(spec, acc)), spec, t);
            w1 == w && Chosen(actionable.GetOr([]), w.objects, acc, spec, t.idle)
  {
    var phase := DeterminePhase(BudgetPercent(spec, acc));
    DetectFinds(w, acc, spec, t);
    var kept := Detect(w, phase, spec, t).1.GetOr([]);
    if t.idle.Some? {
      FilterIdleNames(w, t.idle.value, spec.exclusions);
      forall name
        ensures Named(kept, name) <==>
                && AtLeast(spec, acc, 1.0) && Found(t.idle, name)
                && name in w.objects && !LeftAlone(name, w.objects[name], spec.exclusions)
      {
        if Named(kept, name) {
          var i :| 0 <= i < |kept| && kept[i].name == name;
          assert kept[i] in kept;
          var j :| 0 <= j < |t.idle.value| && t.idle.value[j] == kept[i];
        }
        if AtLeast(spec, acc, 1.0) && Found(t.idle, name)
           && name in w.objects && !LeftAlone(name, w.objects[name], spec.exclusions) {
          var i :| 0 <= i < |t.idle.value| && t.idle.value[i].name == name;
          assert t.idle.value[i] in kept;
          var j :| 0 <= j < |kept| && kept[j] == t.idle.value[i];
        }
      }
    }
  }

  /** Step 10 after step 9: what is down stays as it is. */
  lemma BothSteps(d: Deployment, d1: Deployment, d2: Deployment)
    requires d1 == d || Suspension.Suspended(d, d1)
    requires Suspension.Suspended(d1, d2)
    ensures Suspension.Suspended(d, d2) && d1.labels == d.labels
    ensures Suspension.Suspended(d, d1) ==> Down(d1)
  {
  }

  lemma ActEnforces(w: World, actionable: seq<IdleWorkload>, acc: Accumulated, spec: Spec, t: Tick)
    requires w.script == [] && Lists(t.order, w.objects) && Chosen(actionable, w.objects, acc, spec, t.idle)
    ensures var (w', affected) := Act(w, DeterminePhase(BudgetPercent(spec, acc)), actionable, spec, t);
            && Enforced(w.objects, w'.objects, acc, spec, t.idle)
            && Reported(affected, w.objects, acc, spec, t.idle)
  {
    PhaseIs(spec, acc);
    OneFirst(spec, acc);
    if AtLeast(spec, acc, 1.0) {
      ScaleIdleBrings(w, actionable, t.clock);
      NamesOfNamed(actionable);
      var (w1, affected) := ScaleIdle(w, NamesOf(actionable), t.clock);
      IdleEnforced(w.objects, w1.objects, actionable, acc, spec, t.idle);
      if AtLeast(spec, acc, 1.2) {
        SuspendAllBrings(w1, t.order, spec.exclusions, t.clock);
        AllEnforced(w.objects, w1.objects, SuspendAll(w1, t.order, spec.exclusions, t.clock).0.objects,
                    actionable, acc, spec, t.idle);
        AllReported(w.objects, w1.objects, actionable, SuspendAll(w1, t.order, spec.exclusions, t.clock).1.value,
                    acc, spec, t.idle);
      }
    }
  }

  /** `mid` is `before` with the actionable workloads brought down. */
  predicate IdleDown(before: Objects, mid: Objects, actionable: seq<IdleWorkload>) {
    && mid.Keys == before.Keys
    && forall name :: name in before ==>
         if Named(actionable, name) then Suspension.Suspended(before[name], mid[name]) else mid[name] == before[name]
  }

  lemma IdleEnforced(before: Objects, mid: Objects, actionable: seq<IdleWorkload>, acc: Accumulated, spec: Spec,
                     idle: Option<seq<IdleWorkload>>)
    requires IdleDown(before, mid, actionable) && Chosen(actionable, before, acc, spec, idle)
    ensures !AtLeast(spec, acc, 1.2) ==> Enforced(before, mid, acc, spec, idle)
    ensures forall name :: name in before ==> mid[name].labels == before[name].labels
  {
    forall name | name in before && Named(actionable, name) ensures BroughtDown(before[name], mid[name]) {
      SuspendedMeans(before[name], mid[name]);
    }
  }

  predicate AllDown(mid: Objects, after: Objects, exclusions: seq<Exclusion>) {
    && after.Keys == mid.Keys
    && forall name :: name in mid ==>
         if LeftAlone(name, mid[name], exclusions) then after[name] == mid[name]
         else Suspension.Suspended(mid[name], after[name])
  }

  lemma SameLabels(name: string, d: Deployment, d': Deployment, exclusions: seq<Exclusion>)
    requires d.labels == d'.labels
    ensures LeftAlone(name, d, exclusions) <==> LeftAlone(name, d', exclusions)
  {
    LeftAloneMeans(name, d, exclusions);
    LeftAloneMeans(name, d', exclusions);
  }

  lemma AllEnforced(before: Objects, mid: Objects, after: Objects, actionable: seq<IdleWorkload>, acc: Accumulated,
                    spec: Spec, idle: Option<seq<IdleWorkload>>)
    requires IdleDown(before, mid, actionable) && Chosen(actionable, before, acc, spec, idle)
    requires AllDown(mid, after, spec.exclusions) && AtLeast(spec, acc, 1.2)
    ensures Enforced(before, after, acc, spec, idle)
  {
    IdleEnforced(before, mid, actionable, acc, spec, idle);
    forall name | name in before
      ensures if LeftAlone(name, before[name], spec.exclusions) then after[name] == before[name]
              else BroughtDown(before[name], after[name])
    {
      SameLabels(name, before[name], mid[name], spec.exclusions);
      if !LeftAlone(name, before[name], spec.exclusions) {
        BothSteps(before[name], mid[name], after[name]);
        SuspendedMeans(before[name], after[name]);
      }
    }
  }

  lemma AllReported(before: Objects, mid: Objects, actionable: seq<IdleWorkload>, names: seq<string>, acc: Accumulated,
                    spec: Spec, idle: Option<seq<IdleWorkload>>)
    requires IdleDown(before, mid, actionable) && Chosen(actionable, before, acc, spec, idle)
    requires AtLeast(spec, acc, 1.2) && Distinct(names)
    requires forall name :: name in names <==>
               name in mid && !LeftAlone(name, mid[name], spec.exclusions) && !Down(mid[name])
    ensures Reported(NamesOf(actionable) + names, before, acc, spec, idle)
  {
    OneFirst(spec, acc);
    NamesOfNamed(actionable);
    IdleEnforced(before, mid, actionable, acc, spec, idle);
    forall name | name in before
      ensures name in names
         <==> !LeftAlone(name, before[name], spec.exclusions) && !Down(before[name]) && !Named(actionable, name)
    {
      SameLabels(name, before[name], mid[name], spec.exclusions);
      if Named(actionable, name) {
        SuspendedMeans(before[name], mid[name]);
      }
    }
    DistinctJoin(NamesOf(actionable), names);
  }

  /** First the idle workloads in the order found, then the others in the order listed. */
  ghost predicate InOrder(affected: seq<string>, idle: Option<seq<IdleWorkload>>, order: seq<string>) {
    exists k: nat :: OrderedFrom(affected, k, idle, order)
  }

  predicate OrderedFrom(affected: seq<string>, k: nat, idle: Option<seq<IdleWorkload>>, order: seq<string>) {
    && k <= |affected|
    && Subsequence(affected[..k], NamesOf(idle.GetOr([]))) && Subsequence(affected[k..], order)
  }

  lemma {:induction false} SubsequenceTransitive<T>(a: seq<T>, b: seq<T>, c: seq<T>)
    requires Subsequence(a, b) && Subsequence(b, c)
    ensures Subsequence(a, c)
    decreases |c|
  {
    if a != [] && b != [] && c != [] {
      if b[0] == c[0] && Subsequence(b[1..], c[1..]) {
        if a[0] == b[0] && Subsequence(a[1..], b[1..]) {
          SubsequenceTransitive(a[1..], b[1..], c[1..]);
        } else {
          SubsequenceTransitive(a, b[1..], c[1..]);
        }
      } else {
        SubsequenceTransitive(a, b, c[1..]);
      }
    }
  }

  lemma {:induction false} NamesSubsequence(kept: seq<IdleWorkload>, idle: seq<IdleWorkload>)
    requires Subsequence(kept, idle)
    ensures Subsequence(NamesOf(kept), NamesOf(idle))
    decreases |idle|
  {
    if kept != [] {
      assert NamesOf(idle)[1..] == NamesOf(idle[1..]) && NamesOf(kept)[1..] == NamesOf(kept[1..]);
      if kept[0] == idle[0] && Subsequence(kept[1..], idle[1..]) {
        NamesSubsequence(kept[1..], idle[1..]);
      } else {
        NamesSubsequence(kept, idle[1..]);
      }
    }
  }

  lemma ActInOrder(w: World, phase: Phase, actionable: seq<IdleWorkload>, spec: Spec, t: Tick)
    requires Subsequence(actionable, t.idle.GetOr([]))
    ensures InOrder(Act(w, phase, actionable, spec, t).1, t.idle, t.order)
  {
    var (w1, first) := if Pressed(phase) then ScaleIdle(w, NamesOf(actionable), t.clock) else (w, []);
    if Pressed(phase) {
      ScaleIdleOrder(w, NamesOf(actionable), t.clock);
      NamesSubsequence(actionable, t.idle.GetOr([]));
      SubsequenceTransitive(first, NamesOf(actionable), NamesOf(t.idle.GetOr([])));
    }
    var second: seq<string> := [];
    if phase.Suspended? {
      var (w2, items) := w1.List(t.order);
      if items.Some? {
        SuspendEachOrder(w2, w1.Seen(), t.order, spec.exclusions, t.clock);
        second := SuspendEach(w2, items.value, spec.exclusions, t.clock).1;
      }
    }
    var affected := Act(w, phase, actionable, spec, t).1;
    assert affected == first + second;
    assert affected[..|first|] == first && affected[|first|..] == second;
    assert OrderedFrom(affected, |first|, t.idle, t.order);
  }

  /** Enforcement, end to end: a reconcile of a live budget whose status write is confirmed, without faults on
      Deployments. By the ledger it stores, it brings down exactly the Deployments it should; and the notification of a
      phase change carries the stored phase and percentage and the names. */
  lemma ReconcileEnforces(cfg: Config, s: System, t: Tick)
    requires Live(s, t) && s.budget.value.spec.window.Some? && Acknowledged(t.attempts, ATTEMPTS)
    requires t.script == [] && Lists(t.order, s.world.objects) && (t.idle.Some? ==> DistinctNames(t.idle.value))
    ensures var s', spec := Reconcile(cfg, s, t).0, s.budget.value.spec;
            && s'.budget.Some?
            && var st' := s'.budget.value.status;
               && Enforced(s.world.objects, s'.world.objects, st'.accumulated, spec, t.idle)
               && s.sent <= s'.sent
               && (if st'.phase == s.budget.value.status.phase || !cfg.webhook || t.crash then s'.sent == s.sent
                   else |s'.sent| == |s.sent| + 1
                        && s'.sent[|s.sent|].phase == st'.phase && s'.sent[|s.sent|].percent == st'.percent
                        && Reported(s'.sent[|s.sent|].affected, s.world.objects, st'.accumulated, spec, t.idle)
                        && InOrder(s'.sent[|s.sent|].affected, t.idle, t.order))
  {
    var b, st := s.budget.value, Ledger0(cfg, s, t);
    var s1 := RollOver(cfg, s.(world := s.world.(script := t.script)), b.status, t).0;
    var acc := Measured(st, t).accumulated;
    var phase := DeterminePhase(BudgetPercent(b.spec, acc));
    LiveObserves(cfg, s, t);
    ObserveStores(cfg, s1, b, st, t);
    DetectFinds(s1.world, acc, b.spec, t);
    DetectChooses(s1.world, acc, b.spec, t);
    ActEnforces(s1.world, Detect(s1.world, phase, b.spec, t).1.GetOr([]), acc, b.spec, t);
    ActInOrder(s1.world, phase, Detect(s1.world, phase, b.spec, t).1.GetOr([]), b.spec, t);
  }

  /** The stored list names the workloads found that are there and not excluded, in the order found. */
  ghost predicate ListsOpen(listed: seq<IdleStatus>, idle: seq<IdleWorkload>, objects: Objects,
                            exclusions: seq<Exclusion>) {
    exists kept: seq<IdleWorkload> ::
      && Subsequence(kept, idle)
      && (forall x :: x in kept <==> x in idle && Open(objects, x, exclusions))
      && |listed| == |kept|
      && forall i :: 0 <= i < |kept| ==> listed[i].name == kept[i].name && listed[i].namespace == kept[i].namespace
  }

  lemma KeptListed(kept: seq<IdleWorkload>, previous: seq<IdleStatus>, idle: seq<IdleWorkload>, objects: Objects,
                   exclusions: seq<Exclusion>)
    requires Subsequence(kept, idle) && forall x :: x in kept <==> x in idle && Open(objects, x, exclusions)
    ensures ListsOpen(IdleList(kept, previous), idle, objects, exclusions)
  {
    var listed := IdleList(kept, previous);
    assert |listed| == |kept|
           && forall i :: 0 <= i < |kept| ==>
               listed[i].name == kept[i].name && listed[i].namespace == kept[i].namespace;
  }

  /** The idle list is stored anew under pressure, and stays as it was without or when detection failed. */
  lemma ReconcileListsIdle(cfg: Config, s: System, t: Tick)
    requires Live(s, t) && s.budget.value.spec.window.Some? && Acknowledged(t.attempts, ATTEMPTS) && t.script == []
    ensures Reconcile(cfg, s, t).0.budget.Some?
    ensures var st, st', spec := s.budget.value.status, Reconcile(cfg, s, t).0.budget.value.status, s.budget.value.spec;
            if AtLeast(spec, st'.accumulated, 1.0) && t.idle.Some?
            then ListsOpen(st'.idle, t.idle.value, s.world.objects, spec.exclusions)
            else st'.idle == st.idle
  {
    var b, st := s.budget.value, Ledger0(cfg, s, t);
    var s1 := RollOver(cfg, s.(world := s.world.(script := t.script)), b.status, t).0;
    var acc := Measured(st, t).accumulated;
    LiveObserves(cfg, s, t);
    ObserveStores(cfg, s1, b, st, t);
    DetectFinds(s1.world, acc, b.spec, t);
    var actionable := Detect(s1.world, DeterminePhase(BudgetPercent(b.spec, acc)), b.spec, t).1;
    if actionable.Some? {
      KeptListed(actionable.value, st.idle, t.idle.value, s.world.objects, b.spec.exclusions);
    }
  }

  // ------------------------------------------------------------------ what a reconcile must not do

  lemma RollOverRevisions(cfg: Config, s: System, t: Tick)
    requires s.budget.Some?
    ensures var s1 := RollOver(cfg, s.(world := s.world.(script := t.script)), s.budget.value.status, t).0;
            s1.world.Revisions() == s.world.Revisions() && s1.world.objects == s.world.objects && s1.budget == s.budget
  {
  }

  /** Whatever the calls do, nothing is written to a Deployment unless the status was stored and confirmed first. */
  lemma StoresBeforeActing(cfg: Config, s: System, t: Tick)
    requires Live(s, t)
    requires !Acknowledged(t.attempts, ATTEMPTS) || s.budget.value.spec.window.None?
    ensures Reconcile(cfg, s, t).0.world.Revisions() == s.world.Revisions()
  {
    var b, st := s.budget.value, Ledger0(cfg, s, t);
    var s1 := RollOver(cfg, s.(world := s.world.(script := t.script)), b.status, t).0;
    RollOverRevisions(cfg, s, t);
    LiveObserves(cfg, s, t);
    NoAct(cfg, s1, b, st, t);
  }

  lemma NoAct(cfg: Config, s: System, b: Budget, st: Status, t: Tick)
    requires t.cpu.Some? && t.memory.Some?
    requires !Acknowledged(t.attempts, ATTEMPTS) || b.spec.window.None?
    ensures Observe(cfg, s, b, st, t).0.world.Revisions() == s.world.Revisions()
  {
    var acc := Measured(st, t).accumulated;
    var phase := DeterminePhase(BudgetPercent(b.spec, acc));
    var (w1, actionable) := Detect(s.world, phase, b.spec, t);
    var desired := Concluded(WithIdle(Measured(st, t), actionable), phase, Truncate(BudgetPercent(b.spec, acc)),
                             t.written);
    DetectKeeps(s.world, phase, b.spec, t);
    PersistAcknowledged(b, desired, t.attempts, ATTEMPTS);
  }

  /** Whatever the calls do, a Deployment that is not among the idle ones is written to only from 1.2 of a limit on,
      and none is below 1.0. */
  lemma TouchesOnlyDue(cfg: Config, s: System, t: Tick, name: string)
    requires Live(s, t) && s.budget.value.spec.window.Some? && Acknowledged(t.attempts, ATTEMPTS)
    requires name in s.world.objects
    ensures Reconcile(cfg, s, t).0.budget.Some?
    ensures var acc, spec := Reconcile(cfg, s, t).0.budget.value.status.accumulated, s.budget.value.spec;
            !AtLeast(spec, acc, 1.2) && (!AtLeast(spec, acc, 1.0) || !Found(t.idle, name)) ==>
              Untouched(s.world, Reconcile(cfg, s, t).0.world, name)
  {
    var b, st := s.budget.value, Ledger0(cfg, s, t);
    var s1 := RollOver(cfg, s.(world := s.world.(script := t.script)), b.status, t).0;
    var acc := Measured(st, t).accumulated;
    var phase := DeterminePhase(BudgetPercent(b.spec, acc));
    RollOverRevisions(cfg, s, t);
    LiveObserves(cfg, s, t);
    ObserveStores(cfg, s1, b, st, t);
    PhaseIs(b.spec, acc);
    if !AtLeast(b.spec, acc, 1.2) && (!AtLeast(b.spec, acc, 1.0) || !Found(t.idle, name)) {
      var (w1, actionable) := Detect(s1.world, phase, b.spec, t);
      DetectKeeps(s1.world, phase, b.spec, t);
      SameRevisionsUntouched(s.world, w1, name);
      UntouchedNow(s.world, w1, name);
      ActLeavesOthers(w1, phase, actionable.GetOr([]), b.spec, t, name) by {
        DetectFrom(s1.world, phase, b.spec, t, name);
      }
      UntouchedTransitive(s.world, w1, Act(w1, phase, actionable.GetOr([]), b.spec, t).0, name);
    }
  }

  lemma {:induction false} FilterFrom(w: World, idle: seq<IdleWorkload>, exclusions: seq<Exclusion>)
    ensures forall x :: x in FilterIdle(w, idle, exclusions).1 ==> x in idle
    decreases |idle|
  {
    if idle != [] {
      FilterFrom(if NameExcluded(idle[0].name, exclusions) then w else w.Called(), idle[1..], exclusions);
    }
  }

  lemma DetectFrom(w: World, phase: Phase, spec: Spec, t: Tick, name: string)
    ensures Named(Detect(w, phase, spec, t).1.GetOr([]), name) ==> Found(t.idle, name) && Pressed(phase)
  {
    var kept := Detect(w, phase, spec, t).1.GetOr([]);
    if Named(kept, name) {
      FilterFrom(w, t.idle.value, spec.exclusions);
      var i :| 0 <= i < |kept| && kept[i].name == name;
      assert kept[i] in t.idle.value;
      var j :| 0 <= j < |t.idle.value| && t.idle.value[j] == kept[i];
    }
  }

  lemma ActLeavesOthers(w: World, phase: Phase, actionable: seq<IdleWorkload>, spec: Spec, t: Tick, name: string)
    requires name in w.objects && phase != Budgets.Suspended && !Named(actionable, name)
    ensures Untouched(w, Act(w, phase, actionable, spec, t).0, name)
  {
    NamesOfNamed(actionable);
    ScaleIdleLeavesOthers(w, NamesOf(actionable), t.clock, name);
    SameRevisionsUntouched(w, w, name);
  }

  // ------------------------------------------------------------------ the finalizer and the result

  /** A live budget without the finalizer is given it, and nothing else about the budget changes, unless the update
      is refused. */
  lemma FinalizerAdded(cfg: Config, s: System, t: Tick)
    requires t.readable && s.budget.Some? && !s.budget.value.deleting
    requires "cost.platform.io/cleanup" !in s.budget.value.finalizers
    ensures var b := s.budget.value;
            Reconcile(cfg, s, t).0.budget
              == Some(if t.finalizers.Refused? then b
                      else b.(finalizers := b.finalizers + {"cost.platform.io/cleanup"}))
  {
    RollOverRevisions(cfg, s, t);
  }

  /** A deleted budget loses its finalizer exactly if the cleanup succeeds and the update is not refused; without
      other finalizers it is gone then. */
  lemma FinalizerRemoved(cfg: Config, s: System, t: Tick)
    requires t.readable && s.budget.Some? && s.budget.value.deleting
    requires "cost.platform.io/cleanup" in s.budget.value.finalizers
    ensures var b := s.budget.value;
            Reconcile(cfg, s, t).0.budget
              == if !Cleanup(AtCleanup(cfg, s, t), t.order).1 || t.finalizers.Refused? then Some(b)
                 else if b.finalizers == {"cost.platform.io/cleanup"} then None
                 else Some(b.(finalizers := b.finalizers - {"cost.platform.io/cleanup"}))
  {
    RollOverRevisions(cfg, s, t);
  }

  /** What a reconcile returns, for the work queue. */
  lemma ReconcileReturns(cfg: Config, s: System, t: Tick)
    ensures var r := Reconcile(cfg, s, t).1;
            if !t.readable then r == Failed
            else if s.budget.None? then r == Finished
            else
              var b := s.budget.value;
              if b.deleting then
                if "cost.platform.io/cleanup" in b.finalizers
                   && (!Cleanup(AtCleanup(cfg, s, t), t.order).1 || t.finalizers.Refused? || t.finalizers.ReplyLost?)
                then r == Failed else r == Finished
              else if "cost.platform.io/cleanup" !in b.finalizers then
                if t.finalizers.Refused? || t.finalizers.ReplyLost? then r == Failed else r == Requeued
              else if t.cpu.None? || t.memory.None? then r == RequeuedAfterMinute
              else if !Acknowledged(t.attempts, ATTEMPTS) then r == Failed
              else if b.spec.window.Some? then r == RequeuedAfterMinute
              else r == RequeuedAfterMinute || r == Failed
  {
    if t.readable && s.budget.Some? {
      RollOverRevisions(cfg, s, t);
      if Live(s, t) {
        var s1 := RollOver(cfg, s.(world := s.world.(script := t.script)), s.budget.value.status, t).0;
        LiveObserves(cfg, s, t);
        ObserveReturns(cfg, s1, s.budget.value, Ledger0(cfg, s, t), t);
      }
    }
  }

  lemma ObserveReturns(cfg: Config, s: System, b: Budget, st: Status, t: Tick)
    requires t.cpu.Some? && t.memory.Some?
    ensures var r := Observe(cfg, s, b, st, t).1;
            if !Acknowledged(t.attempts, ATTEMPTS) then r == Failed
            else if b.spec.window.Some? then r == RequeuedAfterMinute
            else r == if AtLeast(b.spec, Measured(st, t).accumulated, 1.0) then Failed else RequeuedAfterMinute
  {
    var acc := Measured(st, t).accumulated;
    var phase := DeterminePhase(BudgetPercent(b.spec, acc));
    var (w1, actionable) := Detect(s.world, phase, b.spec, t);
    var desired := Concluded(WithIdle(Measured(st, t), actionable), phase, Truncate(BudgetPercent(b.spec, acc)),
                             t.written);
    PersistAcknowledged(b, desired, t.attempts, ATTEMPTS);
    PhaseIs(b.spec, acc);
    OneFirst(b.spec, acc);
  }

  // ------------------------------------------------------------------ the month turns

  /** What such a reconcile stores is an entry of the log, with a reset exactly if the ledger is cleared. */
  lemma StoredEntry(cfg: Config, s: System, t: Tick)
    requires Live(s, t) && s.budget.value.spec.window.Some? && Lands(t.attempts, ATTEMPTS)
    ensures var entry, s' := EntryOf(cfg, s, t), Reconcile(cfg, s, t).0;
            && entry.Some? && Genuine(entry.value) && entry.value.before == s.budget.value.status
            && entry.value.tick == t && entry.value.spec == s.budget.value.spec && (entry.value.reset <==> Clears(s, t))
            && s'.budget.Some? && s'.budget.value.status == entry.value.after
  {
    StoresEntry(cfg, s, t);
    EntryGenuine(cfg, s, t);
    EntryKeepsBudget(cfg, s, t);
    ReconcileStatus(cfg, s, t);
  }

  /** No reconcile of the run is on the first of a month other than `month`. */
  predicate WithinMonth(events: seq<Event>, month: int) {
    forall i :: 0 <= i < |events| && events[i].Reconciled? ==>
      events[i].tick.today.day != 1 || events[i].tick.today.month == month
  }

  lemma {:induction false} SinceKept(cfg: Config, s: System, events: seq<Event>, stamp: Stamp)
    requires s.budget.Some? && s.budget.value.status.accumulated.since == At(stamp)
    requires WithinMonth(events, stamp.month) && RunOf(cfg, s, events).budget.Some?
    ensures RunOf(cfg, s, events).budget.value.status.accumulated.since == At(stamp)
    decreases |events|
  {
    if events != [] {
      var s1 := Advance(cfg, s, events[0]);
      if s1.budget.None? {
        GoneStaysGone(cfg, s1, events[1..]);
      }
      EventStatus(cfg, s, events[0]);
      if EntryAt(cfg, s, events[0]).Some? {
        EntryGenuine(cfg, s, events[0].tick);
        EntrySince(EntryAt(cfg, s, events[0]).value);
      }
      SinceKept(cfg, s1, events[1..], stamp);
    }
  }

  /** It is the first of a month, no call about the report fails, and the status lands. */
  predicate TurnsMonth(s: System, t: Tick) {
    && Live(s, t) && s.budget.value.spec.window.Some? && Lands(t.attempts, ATTEMPTS)
    && t.today.day == 1 && t.reportGet.Done? && t.usage.Some? && t.create.Done? && t.fill.Done?
  }

  /** The report of the month before is there, filled with the whole ledger if it was not before. */
  ghost predicate ReportThere(cfg: Config, s: System, reports: map<int, Report>, t: Tick)
    requires s.budget.Some? && t.usage.Some?
  {
    var month := t.today.month - 1;
    && month in reports
    && (month in s.reports || (reports[month].status.Some? && FilledIn(cfg, s, reports[month].status.value, t)))
  }

  /** The ledger is begun anew and holds nothing but the usage since the last stored reconcile. */
  predicate BegunAnew(acc: Accumulated, t: Tick, lastReconcile: Option<real>)
    requires Measurable(t)
  {
    && acc.since == At(t.today)
    && Rounded(AmountIn(acc, Cpu), UsageSince(t, Cpu, lastReconcile))
    && Rounded(AmountIn(acc, Memory), UsageSince(t, Memory, lastReconcile))
  }

  /** A ledger begun in another month has been rolled over. */
  ghost predicate RolledOver(cfg: Config, s: System, s': System, t: Tick)
    requires s.budget.Some? && t.usage.Some? && Measurable(t)
  {
    && ReportThere(cfg, s, s'.reports, t)
    && s'.budget.Some? && BegunAnew(s'.budget.value.status.accumulated, t, s.budget.value.status.lastReconcile)
  }

  lemma ResetLedger(e: Entry, dim: Resource)
    requires Genuine(e) && e.reset
    ensures Rounded(AmountIn(e.after.accumulated, dim), UsageSince(e.tick, dim, e.before.lastReconcile))
  {
    EntryLedger(e, dim);
    FromNothing(AmountIn(e.after.accumulated, dim), UsageSince(e.tick, dim, e.before.lastReconcile));
  }

  lemma FromNothing(n: int, usage: real)
    requires Rounded(n, 0 as real / 1000000.0 + usage)
    ensures Rounded(n, usage)
  {
  }

  predicate BegunIn(since: Since, month: int) {
    since.At? && since.stamp.month == month
  }

  lemma TurnClears(s: System, t: Tick)
    requires TurnsMonth(s, t) && s.budget.value.status.accumulated.since.At?
    requires !BegunIn(s.budget.value.status.accumulated.since, t.today.month)
    ensures Clears(s, t) && (t.today.month - 1 !in s.reports ==> HandsOver(s, t))
  {
  }

  lemma TurnReports(cfg: Config, s: System, t: Tick)
    requires s.budget.Some? && t.usage.Some? && Clears(s, t) && (Due(t) !in s.reports ==> HandsOver(s, t))
    ensures ReportThere(cfg, s, Reconcile(cfg, s, t).0.reports, t)
  {
    ReconcileReports(cfg, s, t);
    FiledThere(cfg, s, Reconcile(cfg, s, t).0.reports, t);
  }

  lemma FiledThere(cfg: Config, s: System, reports: map<int, Report>, t: Tick)
    requires s.budget.Some? && t.usage.Some? && (Due(t) !in s.reports ==> HandsOver(s, t)) && Filed(cfg, s, reports, t)
    ensures ReportThere(cfg, s, reports, t)
  {
  }

  lemma TurnLedger(cfg: Config, s: System, t: Tick)
    requires TurnsMonth(s, t) && s.budget.value.status.accumulated.since.At?
    requires !BegunIn(s.budget.value.status.accumulated.since, t.today.month)
    ensures var s' := Reconcile(cfg, s, t).0;
            s'.budget.Some? && BegunAnew(s'.budget.value.status.accumulated, t, s.budget.value.status.lastReconcile)
  {
    StoredEntry(cfg, s, t);
    TurnClears(s, t);
    var e := EntryOf(cfg, s, t).value;
    EntrySince(e);
    ResetLedger(e, Cpu);
    ResetLedger(e, Memory);
  }

  lemma TurnRollsOver(cfg: Config, s: System, t: Tick)
    requires TurnsMonth(s, t) && s.budget.value.status.accumulated.since.At?
    requires !BegunIn(s.budget.value.status.accumulated.since, t.today.month)
    ensures RolledOver(cfg, s, Reconcile(cfg, s, t).0, t)
  {
    TurnClears(s, t);
    TurnReports(cfg, s, t);
    TurnLedger(cfg, s, t);
  }

  lemma FirstBegins(cfg: Config, s: System, t: Tick)
    requires Live(s, t) && s.budget.value.spec.window.Some? && Lands(t.attempts, ATTEMPTS)
    requires s.budget.value.status.accumulated.since.Unset?
    ensures var s' := Reconcile(cfg, s, t).0;
            s'.budget.Some? && s'.budget.value.status.accumulated.since == At(t.today)
  {
    StoredEntry(cfg, s, t);
    EntrySince(EntryOf(cfg, s, t).value);
  }

  /** A fresh budget is rolled over, whatever happens between its first stored status and the next reconcile
      on the first of another month. */
  lemma MonthTurns(cfg: Config, s: System, first: Tick, events: seq<Event>, last: Tick)
    requires Live(s, first) && s.budget.value.spec.window.Some? && Lands(first.attempts, ATTEMPTS)
    requires s.budget.value.status.accumulated.since.Unset? && WithinMonth(events, first.today.month)
    requires TurnsMonth(RunOf(cfg, Reconcile(cfg, s, first).0, events), last)
    requires last.today.month != first.today.month
    ensures var s2 := RunOf(cfg, Reconcile(cfg, s, first).0, events);
            RolledOver(cfg, s2, Reconcile(cfg, s2, last).0, last)
  {
    FirstBegins(cfg, s, first);
    SinceKept(cfg, Reconcile(cfg, s, first).0, events, first.today);
    TurnRollsOver(cfg, RunOf(cfg, Reconcile(cfg, s, first).0, events), last);
  }
}
