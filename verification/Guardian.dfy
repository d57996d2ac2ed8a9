/** Runs of the whole system: reconciles with any outcomes, edits and deletion of the budget, and the command line.
    As long as an operator mark is anywhere, the budget is there with its finalizer to take it back. */
module Guardian {
  import opened Options
  import opened Deployments
  import opened Exclusions
  import opened ActionSpec
  import opened Recovery
  import opened Provenance
  import opened Suspension
  import opened Lifecycle
  import opened Budgets
  import opened Detector
  import opened ReconcileSpec

  datatype Event =
    | Reconciled(tick: Tick)
    | BudgetDeleted
    | SpecChanged(spec: Spec)
    | CommandRestored(order: seq<string>, script: seq<Outcome>)

  /** Deleting an object that carries finalizers only marks it. */
  function Deleted(budget: Option<Budget>): Option<Budget> {
    if budget.None? || budget.value.finalizers == {} then None else Some(budget.value.(deleting := true))
  }

  function Advance(cfg: Config, s: System, e: Event): System {
    match e
    case Reconciled(tick) => Reconcile(cfg, s, tick).0
    case BudgetDeleted => s.(budget := Deleted(s.budget))
    case SpecChanged(spec) => if s.budget.None? then s else s.(budget := Some(s.budget.value.(spec := spec)))
    case CommandRestored(order, script) => s.(world := CliRestore(s.world.(script := script), order).0)
  }

  function RunOf(cfg: Config, s: System, events: seq<Event>): System
    decreases |events|
  {
    if events == [] then s else RunOf(cfg, Advance(cfg, s, events[0]), events[1..])
  }

  predicate Finalizing(s: System) {
    s.budget.Some? && s.budget.value.deleting
  }

  predicate Watched(budget: Option<Budget>) {
    budget.Some? && FINALIZER in budget.value.finalizers
  }

  /** Where the cleanup of a reconcile starts: after the rollover. */
  function AtCleanup(cfg: Config, s: System, t: Tick): World
    requires s.budget.Some?
  {
    RollOver(cfg, s.(world := s.world.(script := t.script)), s.budget.value.status, t).0.world
  }

  predicate Noticed(w: World, order: seq<string>) {
    forall name :: name in w.objects && IsScaledDownByOperator(w.objects[name]) ==> NoticedBy(w, order, name)
  }

  /** Reads may be stale, with two exceptions: nothing is restored from an overtaken copy, and a cleanup
      that lets the finalizer go has noticed every mark. */
  predicate Timely(cfg: Config, s: System, e: Event) {
    match e
    case CommandRestored(order, script) => Admissible(s.world.(script := script), CliOp(order))
    case Reconciled(t) =>
      Finalizing(s) && Watched(s.budget) && t.readable ==>
        var w := AtCleanup(cfg, s, t);
        && Admissible(w, CleanupOp(t.order)) && Distinct(t.order)
        && (Cleanup(w, t.order).1 && !t.finalizers.Refused? ==> Noticed(w, t.order))
    case _ => true
  }

  predicate AlwaysTimely(cfg: Config, s: System, events: seq<Event>)
    decreases |events|
  {
    events == [] || (Timely(cfg, s, events[0]) && AlwaysTimely(cfg, Advance(cfg, s, events[0]), events[1..]))
  }

  /** Every revision is faithful to the original Deployments, and marks exist only under a finalizer. */
  predicate Guarded(s: System, origin: Objects) {
    Honest(s.world, origin) && (Watched(s.budget) || NoneMarked(s.world.objects))
  }

  // ------------------------------------------------------------------ the parts of a reconcile

  lemma RescriptHonest(w: World, script: seq<Outcome>, origin: Objects)
    requires Honest(w, origin)
    ensures Honest(w.(script := script), origin)
  {
    assert w.(script := script).Revisions() == w.Revisions();
  }

  lemma GenerateKeeps(cfg: Config, s: System, acc: Accumulated, t: Tick, origin: Objects)
    requires Honest(s.world, origin)
    ensures var s' := Generate(cfg, s, acc, t).0;
            && s'.budget == s.budget && s'.sent == s.sent && Honest(s'.world, origin)
            && s'.world.Revisions() == s.world.Revisions() && s'.world.objects == s.world.objects
            && (Fresh(s.world.script) ==> Fresh(s'.world.script))
  {
  }

  lemma RollOverBudget(cfg: Config, s: System, st: Status, t: Tick)
    ensures RollOver(cfg, s, st, t).0.budget == s.budget && RollOver(cfg, s, st, t).0.sent == s.sent
  {
  }

  lemma RollOverKeeps(cfg: Config, s: System, st: Status, t: Tick, origin: Objects)
    requires Honest(s.world, origin)
    ensures var s' := RollOver(cfg, s, st, t).0;
            && s'.budget == s.budget && s'.sent == s.sent && Honest(s'.world, origin)
            && s'.world.Revisions() == s.world.Revisions() && s'.world.objects == s.world.objects
            && (Fresh(s.world.script) ==> Fresh(s'.world.script))
  {
    GenerateKeeps(cfg, s, Opened(st, t.today).accumulated, t, origin);
  }

  lemma {:induction false} FilterIdleKeeps(w: World, idle: seq<IdleWorkload>, exclusions: seq<Exclusion>)
    ensures FilterIdle(w, idle, exclusions).0.Revisions() == w.Revisions()
    decreases |idle|
  {
    if idle == [] {
    } else if NameExcluded(idle[0].name, exclusions) {
      FilterIdleKeeps(w, idle[1..], exclusions);
    } else {
      FilterIdleKeeps(w.Called(), idle[1..], exclusions);
    }
  }

  /** What the filter lets through some revision shows as excluded neither by name nor by label,
      however stale its look was. */
  lemma {:induction false} FilterIdleSound(w: World, idle: seq<IdleWorkload>, exclusions: seq<Exclusion>, name: string)
    requires AlwaysExcluded(w, name, exclusions)
    ensures var kept := FilterIdle(w, idle, exclusions).1;
            forall x :: x in kept ==> x.name != name
    decreases |idle|
  {
    if idle == [] {
    } else if NameExcluded(idle[0].name, exclusions) {
      FilterIdleSound(w, idle[1..], exclusions, name);
    } else {
      SeenExcluded(w, name, exclusions);
      FilterIdleSound(w.Called(), idle[1..], exclusions, name);
    }
  }

  lemma {:induction false} PersistKeeps(b: Budget, desired: Status, attempts: seq<Attempt>, left: nat)
    ensures var stored := Persist(b, desired, attempts, left).0;
            && stored.finalizers == b.finalizers
            && stored.status == (if Lands(attempts, left) then desired else b.status)
    ensures Persist(b, desired, attempts, left).1 ==> Lands(attempts, left)
    decreases |attempts|
  {
    if Edits(attempts, left) {
      PersistKeeps(Edited(b, attempts[0].edit), desired, attempts[1..], Left(attempts, left));
    }
  }

  /** Another writer's edit comes next, either between attempts or as the cause of a conflict. */
  predicate Edits(attempts: seq<Attempt>, left: nat) {
    left > 0 && attempts != [] && (attempts[0].Meanwhile? || attempts[0].Conflict?)
  }

  /** Only a conflict uses up an attempt. */
  function Left(attempts: seq<Attempt>, left: nat): nat
    requires Edits(attempts, left)
  {
    if attempts[0].Conflict? then left - 1 else left
  }

  function LastSpec(spec: Spec, attempts: seq<Attempt>, left: nat): Spec
    decreases |attempts|
  {
    if Edits(attempts, left) then
      LastSpec(if attempts[0].edit.NewSpec? then attempts[0].edit.spec else spec, attempts[1..], Left(attempts, left))
    else spec
  }

  predicate DeletedMeanwhile(attempts: seq<Attempt>, left: nat)
    decreases |attempts|
  {
    Edits(attempts, left) && (attempts[0].edit.MarkDeleted? || DeletedMeanwhile(attempts[1..], Left(attempts, left)))
  }

  /** A status update that lands writes exactly the desired status, onto the object it re-read: finalizers as they were,
      and every edit since the first read, of the spec or marking for deletion, survives, conflict or not. */
  lemma {:induction false} PersistPrecise(b: Budget, desired: Status, attempts: seq<Attempt>, left: nat)
    requires Lands(attempts, left)
    ensures Persist(b, desired, attempts, left).0.status == desired
    ensures Persist(b, desired, attempts, left).0.spec == LastSpec(b.spec, attempts, left)
    ensures Persist(b, desired, attempts, left).0.finalizers == b.finalizers
    ensures Persist(b, desired, attempts, left).0.deleting <==> b.deleting || DeletedMeanwhile(attempts, left)
    decreases |attempts|
  {
    if Edits(attempts, left) {
      PersistPrecise(Edited(b, attempts[0].edit), desired, attempts[1..], Left(attempts, left));
    }
  }

  lemma ActHonest(w: World, phase: Phase, actionable: seq<IdleWorkload>, spec: Spec, t: Tick, origin: Objects)
    requires Honest(w, origin)
    ensures Honest(Act(w, phase, actionable, spec, t).0, origin)
  {
    var w1 := w;
    if Pressed(phase) {
      ScaleIdleHonest(w, NamesOf(actionable), t.clock, origin);
      w1 := ScaleIdle(w, NamesOf(actionable), t.clock).0;
    }
    if phase.Suspended? {
      SuspendAllHonest(w1, t.order, spec.exclusions, t.clock, origin);
    }
  }

  lemma DetectKeeps(w: World, phase: Phase, spec: Spec, t: Tick)
    ensures Detect(w, phase, spec, t).0.Revisions() == w.Revisions()
  {
    if Pressed(phase) && t.idle.Some? {
      FilterIdleKeeps(w, t.idle.value, spec.exclusions);
    }
  }

  lemma ObserveGuarded(cfg: Config, s: System, b: Budget, st: Status, t: Tick, origin: Objects)
    requires Guarded(s, origin) && s.budget == Some(b) && FINALIZER in b.finalizers
    requires t.cpu.Some? && t.memory.Some?
    ensures Guarded(Observe(cfg, s, b, st, t).0, origin)
  {
    var measured := Measured(st, t);
    var percent := BudgetPercent(b.spec, measured.accumulated);
    var phase := DeterminePhase(percent);
    var (w1, actionable) := Detect(s.world, phase, b.spec, t);
    DetectKeeps(s.world, phase, b.spec, t);
    var desired := Concluded(WithIdle(measured, actionable), phase, Truncate(percent), t.written);
    PersistKeeps(b, desired, t.attempts, ATTEMPTS);
    ActHonest(w1, phase, actionable.GetOr([]), b.spec, t, origin);
  }

  lemma FinalizeGuarded(s: System, b: Budget, t: Tick, origin: Objects)
    requires Guarded(s, origin) && s.budget == Some(b)
    requires FINALIZER in b.finalizers ==>
               && Admissible(s.world, CleanupOp(t.order)) && Distinct(t.order)
               && (Cleanup(s.world, t.order).1 && !t.finalizers.Refused? ==> Noticed(s.world, t.order))
    ensures Guarded(Finalize(s, b, t).0, origin)
  {
    if FINALIZER in b.finalizers {
      PerformHonest(s.world, CleanupOp(t.order), origin);
      if Cleanup(s.world, t.order).1 {
        CleanupNoneMarked(s.world, t.order);
      }
    }
  }

  /** A successful cleanup leaves no mark exactly if it noticed every one. */
  lemma CleanupNoneMarked(w: World, order: seq<string>)
    requires Cleanup(w, order).1 && Distinct(order)
    ensures NoneMarked(Cleanup(w, order).0.objects) <==> Noticed(w, order)
  {
    CleanupKeys(w, order);
    forall name | name in w.objects
      ensures IsScaledDownByOperator(Cleanup(w, order).0.objects[name])
         <==> IsScaledDownByOperator(w.objects[name]) && !NoticedBy(w, order, name)
    {
      CleanupMarks(w, order, name);
    }
  }

  lemma ReconcileGuarded(cfg: Config, s: System, t: Tick, origin: Objects)
    requires Guarded(s, origin) && Timely(cfg, s, Reconciled(t))
    ensures Guarded(Reconcile(cfg, s, t).0, origin)
  {
    RescriptHonest(s.world, t.script, origin);
    var s0 := s.(world := s.world.(script := t.script));
    if t.readable && s.budget.Some? {
      var b := s.budget.value;
      RollOverKeeps(cfg, s0, b.status, t, origin);
      var (s1, st) := RollOver(cfg, s0, b.status, t);
      assert Guarded(s1, origin);
      if b.deleting {
        FinalizeGuarded(s1, b, t, origin);
      } else if FINALIZER in b.finalizers && t.cpu.Some? && t.memory.Some? {
        ObserveGuarded(cfg, s1, b, st, t, origin);
      }
    }
  }

  lemma CommandGuarded(s: System, order: seq<string>, script: seq<Outcome>, origin: Objects)
    requires Guarded(s, origin) && Admissible(s.world.(script := script), CliOp(order))
    ensures Honest(CliRestore(s.world.(script := script), order).0, origin)
    ensures NoneMarked(s.world.objects) ==> NoneMarked(CliRestore(s.world.(script := script), order).0.objects)
  {
    var w := s.world.(script := script);
    RescriptHonest(s.world, script, origin);
    PerformHonest(w, CliOp(order), origin);
    if NoneMarked(w.objects) {
      var (w1, items) := w.List(order);
      if items.Some? {
        CliRestoreNeverMarks(w1, items.value);
      }
    }
  }

  lemma {:induction false} CliRestoreNeverMarks(w: World, items: seq<Item>)
    requires NoneMarked(w.objects)
    ensures NoneMarked(CliRestoreEach(w, items).0.objects)
    decreases |items|
  {
    if items != [] {
      var name, d := items[0].name, items[0].deployment;
      if name in w.objects && Record(d).Some? {
        ReleaseNeverMarks(w.objects[name], d);
      }
      CliRestoreNeverMarks(CliRestoreOne(w, name, d).0, items[1..]);
    }
  }

  lemma ReleaseNeverMarks(server: Deployment, snapshot: Deployment)
    requires !IsScaledDownByOperator(server) && Record(snapshot).Some?
    ensures !IsScaledDownByOperator(Apply(server, Diff(snapshot, Released(snapshot, Record(snapshot).value))))
  {
    assert SCALED_DOWN_BY in COST_KEYS;
  }

  lemma AtCleanupSame(cfg: Config, s: System, t: Tick)
    requires s.budget.Some?
    ensures var w := AtCleanup(cfg, s, t);
            && w.objects == s.world.objects && w.Revisions() == s.world.Revisions()
            && (Fresh(t.script) ==> Fresh(w.script))
  {
  }

  lemma EventGuarded(cfg: Config, s: System, e: Event, origin: Objects)
    requires Guarded(s, origin) && Timely(cfg, s, e)
    ensures Guarded(Advance(cfg, s, e), origin)
  {
    match e
    case Reconciled(tick) => ReconcileGuarded(cfg, s, tick, origin);
    case CommandRestored(order, script) => CommandGuarded(s, order, script, origin);
    case _ =>
  }

  /** The invariant of the system, over any run of reconciles with any faults, budget edits, deletion and command-line
      restores, with all reads but these two as stale as they like. */
  lemma {:induction false} TimelyRunGuarded(cfg: Config, s: System, events: seq<Event>, origin: Objects)
    requires Guarded(s, origin) && AlwaysTimely(cfg, s, events)
    ensures Guarded(RunOf(cfg, s, events), origin)
    decreases |events|
  {
    if events != [] {
      EventGuarded(cfg, s, events[0], origin);
      TimelyRunGuarded(cfg, Advance(cfg, s, events[0]), events[1..], origin);
    }
  }

  /** Whoever restores reads the current revision of each of the Deployments: the command, and a reconcile of a deleted
      budget. A reconcile of a live budget may read any. */
  predicate RestoresFresh(s: System, e: Event, origin: Objects) {
    && (e.CommandRestored? ==> Fresh(e.script) && Distinct(e.order))
    && (e.Reconciled? && Finalizing(s) ==> Fresh(e.tick.script) && Lists(e.tick.order, origin))
  }

  predicate AlwaysRestoresFresh(cfg: Config, s: System, events: seq<Event>, origin: Objects)
    decreases |events|
  {
    events == []
    || (RestoresFresh(s, events[0], origin)
        && AlwaysRestoresFresh(cfg, Advance(cfg, s, events[0]), events[1..], origin))
  }

  /** Reads of the current revision are always timely. */
  lemma FreshTimely(cfg: Config, s: System, e: Event, origin: Objects)
    requires Guarded(s, origin)
    requires RestoresFresh(s, e, origin)
    ensures Timely(cfg, s, e)
  {
    HonestNow(s.world, origin);
    match e
    case CommandRestored(order, script) =>
      RescriptHonest(s.world, script, origin);
      FreshAdmissible(s.world.(script := script), CliOp(order), origin);
    case Reconciled(t) =>
      if Finalizing(s) {
        var w := AtCleanup(cfg, s, t);
        AtCleanupSame(cfg, s, t);
        FreshAdmissible(w, CleanupOp(t.order), origin);
        if Cleanup(w, t.order).1 {
          CleanupDone(w, t.order);
          CleanupNoneMarked(w, t.order);
        }
      }
    case _ =>
  }

  /** The invariant of the system: from clean Deployments, over any run of reconciles with any faults, budget edits,
      deletion and command-line restores, in which restoring reads are current, a Deployment is marked only while the
      budget exists and carries the finalizer. */
  lemma {:induction false} RunGuarded(cfg: Config, s: System, events: seq<Event>, origin: Objects)
    requires Guarded(s, origin) && AlwaysRestoresFresh(cfg, s, events, origin)
    ensures AlwaysTimely(cfg, s, events) && Guarded(RunOf(cfg, s, events), origin)
    decreases |events|
  {
    if events != [] {
      FreshTimely(cfg, s, events[0], origin);
      EventGuarded(cfg, s, events[0], origin);
      RunGuarded(cfg, Advance(cfg, s, events[0]), events[1..], origin);
    }
  }

  lemma CleanGuarded(s: System, origin: Objects)
    requires CleanOrigin(origin) && s.world == World([], origin, [])
    ensures Guarded(s, origin)
  {
    CleanStart(origin, []);
    assert SCALED_DOWN_BY in COST_KEYS;
  }

  /** Every Deployment is as it was originally, except that replicas left unset may read 1. */
  predicate AsBefore(objects: Objects, origin: Objects) {
    && objects.Keys == origin.Keys
    && forall name :: name in origin ==>
         || objects[name] == origin[name]
         || (origin[name].replicas.None? && objects[name] == origin[name].(replicas := Some(1)))
  }

  lemma UnwatchedAsBefore(s: System, origin: Objects)
    requires Guarded(s, origin) && !Watched(s.budget)
    ensures AsBefore(s.world.objects, origin)
  {
    var w := s.world;
    HonestNow(w, origin);
    forall name | name in origin
      ensures || w.objects[name] == origin[name]
              || (origin[name].replicas.None? && w.objects[name] == origin[name].(replicas := Some(1)))
    {
      UnmarkedAsBefore(w.objects[name], origin[name]);
    }
  }

  lemma UnmarkedAsBefore(d: Deployment, o: Deployment)
    requires Faithful(d, o) && !IsScaledDownByOperator(d)
    ensures d == o || (o.replicas.None? && d == o.(replicas := Some(1)))
  {
    FaithfulCount(d, o);
    assert d.annotations - COST_KEYS == d.annotations;
  }

  /** So once the budget is gone, or has lost its finalizer, every Deployment is as it was before the budget existed. */
  lemma GoneMeansRestored(cfg: Config, s: System, events: seq<Event>, origin: Objects)
    requires CleanOrigin(origin) && s.world == World([], origin, []) && AlwaysRestoresFresh(cfg, s, events, origin)
    ensures var s' := RunOf(cfg, s, events);
            !Watched(s'.budget) ==> AsBefore(s'.world.objects, origin)
  {
    CleanGuarded(s, origin);
    RunGuarded(cfg, s, events, origin);
    if !Watched(RunOf(cfg, s, events).budget) {
      UnwatchedAsBefore(RunOf(cfg, s, events), origin);
    }
  }

  /** The same with stale reads, as long as they are timely. */
  lemma GoneMeansRestoredTimely(cfg: Config, s: System, events: seq<Event>, origin: Objects)
    requires CleanOrigin(origin) && s.world == World([], origin, []) && AlwaysTimely(cfg, s, events)
    ensures var s' := RunOf(cfg, s, events);
            !Watched(s'.budget) ==> AsBefore(s'.world.objects, origin)
  {
    CleanGuarded(s, origin);
    TimelyRunGuarded(cfg, s, events, origin);
    if !Watched(RunOf(cfg, s, events).budget) {
      UnwatchedAsBefore(RunOf(cfg, s, events), origin);
    }
  }

  // ------------------------------------------------------------------ deletion ends

  /** One reconcile of a deleted budget in which no call of its cleanup fails restores everything and drops
      the finalizer, if every record is readable. */
  lemma FinalizerGoes(cfg: Config, s: System, t: Tick)
    requires Finalizing(s) && Faultless(t)
    requires Lists(t.order, s.world.objects) && Readable(s.world.objects)
    ensures var s' := Reconcile(cfg, s, t).0;
            && !Watched(s'.budget)
            && (Watched(s.budget) ==> RescuedIn(s.world.objects, s'.world.objects, t.order))
  {
    var w := AtCleanup(cfg, s, t);
    AtCleanupSame(cfg, s, t);
    AtCleanupFaults(cfg, s, t);
    var s0, b := s.(world := s.world.(script := t.script)), s.budget.value;
    RollOverBudget(cfg, s0, b.status, t);
    if FINALIZER in b.finalizers {
      CleanupProgress(w, t.order);
      CleanupDone(w, t.order);
    }
  }

  /** Current reads, no call on a Deployment that fails, and the finalizer's update goes through. */
  predicate Faultless(t: Tick) {
    t.readable && Fresh(t.script) && Faults(t.script) == 0 && !t.finalizers.Refused?
  }

  lemma AtCleanupFaults(cfg: Config, s: System, t: Tick)
    requires s.budget.Some?
    ensures Faults(AtCleanup(cfg, s, t).script) <= Faults(t.script)
  {
  }

  /** A budget that is deleted and has lost the finalizer never gets it back. */
  predicate LetGo(s: System) {
    !Watched(s.budget) && (s.budget.None? || Finalizing(s))
  }

  lemma {:induction false} StaysLetGo(cfg: Config, s: System, events: seq<Event>)
    requires LetGo(s)
    ensures LetGo(RunOf(cfg, s, events))
    decreases |events|
  {
    if events != [] {
      StaysLetGo(cfg, Advance(cfg, s, events[0]), events[1..]);
    }
  }

  lemma StaysDeleted(cfg: Config, s: System, e: Event)
    requires Finalizing(s)
    ensures Advance(cfg, s, e).budget.None? || Finalizing(Advance(cfg, s, e))
  {
  }

  lemma {:induction false} DeletedEnds(cfg: Config, s: System, events: seq<Event>, k: nat, origin: Objects)
    requires Guarded(s, origin) && Finalizing(s) && AlwaysRestoresFresh(cfg, s, events, origin)
    requires k < |events| && events[k].Reconciled? && Faultless(events[k].tick)
    ensures var s' := RunOf(cfg, s, events);
            LetGo(s') && AsBefore(s'.world.objects, origin)
    decreases |events|
  {
    RunGuarded(cfg, s, events, origin);
    var s1 := Advance(cfg, s, events[0]);
    StaysDeleted(cfg, s, events[0]);
    if s1.budget.None? || k == 0 {
      if k == 0 {
        HonestNow(s.world, origin);
        forall name | name in s.world.objects ensures Effective(s.world.objects[name]).Some? {
          FaithfulCount(s.world.objects[name], origin[name]);
        }
        FinalizerGoes(cfg, s, events[0].tick);
      }
      StaysLetGo(cfg, s1, events[1..]);
      UnwatchedAsBefore(RunOf(cfg, s, events), origin);
    } else {
      FreshTimely(cfg, s, events[0], origin);
      EventGuarded(cfg, s, events[0], origin);
      DeletedEnds(cfg, s1, events[1..], k - 1, origin);
    }
  }

  /** Deletion ends: in any run in which the budget is deleted, however many reconciles fail then and whatever else
      happens, one faultless reconcile after that is enough. At the end there is no finalizer left, and every Deployment
      is as it was before the budget existed. */
  lemma {:induction false} DeletionEnds(cfg: Config, s: System, events: seq<Event>, j: nat, k: nat, origin: Objects)
    requires Guarded(s, origin) && AlwaysRestoresFresh(cfg, s, events, origin)
    requires j < k < |events| && events[j].BudgetDeleted? && events[k].Reconciled? && Faultless(events[k].tick)
    ensures var s' := RunOf(cfg, s, events);
            LetGo(s') && AsBefore(s'.world.objects, origin)
    decreases |events|
  {
    RunGuarded(cfg, s, events, origin);
    FreshTimely(cfg, s, events[0], origin);
    EventGuarded(cfg, s, events[0], origin);
    var s1 := Advance(cfg, s, events[0]);
    if s1.budget.None? {
      StaysLetGo(cfg, s1, events[1..]);
      UnwatchedAsBefore(RunOf(cfg, s, events), origin);
    } else if j == 0 {
      DeletedEnds(cfg, s1, events[1..], k - 1, origin);
    } else {
      DeletionEnds(cfg, s1, events[1..], j - 1, k - 1, origin);
    }
  }

  /** The finalizer goes with every mark taken back exactly if the cleanup noticed each of them; with current fetches,
      exactly if its list showed each of them, however old a revision it showed. */
  lemma FinalizerExact(cfg: Config, s: System, t: Tick)
    requires Finalizing(s) && Watched(s.budget) && t.readable && Lists(t.order, s.world.objects)
    requires !Watched(Reconcile(cfg, s, t).0.budget)
    ensures var w, s' := AtCleanup(cfg, s, t), Reconcile(cfg, s, t).0;
            && (NoneMarked(s'.world.objects) <==> Noticed(w, t.order))
            && (Fresh(w.Called().script) ==>
                  (NoneMarked(s'.world.objects) <==>
                     forall name :: name in s.world.objects && IsScaledDownByOperator(s.world.objects[name]) ==>
                       name in w.Seen() && IsScaledDownByOperator(w.Seen()[name])))
  {
    var w := AtCleanup(cfg, s, t);
    AtCleanupSame(cfg, s, t);
    var s1 := RollOver(cfg, s.(world := s.world.(script := t.script)), s.budget.value.status, t).0;
    RollOverBudget(cfg, s.(world := s.world.(script := t.script)), s.budget.value.status, t);
    assert Reconcile(cfg, s, t) == Finalize(s1, s.budget.value, t);
    CleanupNoneMarked(w, t.order);
    if Fresh(w.Called().script) {
      StaleListCleanup(w, t.order);
    }
  }

  const HALF := Annotated(THREE, "")
  const DOWN := WithReplicas(HALF, 0)
  const ABANDONED := World([map["d" := THREE], map["d" := HALF]], map["d" := DOWN], [])
  const DELETED := Budget(Spec(None, None, None, []),
                          Status(NoPhase, 0, 0, Accumulated(None, None, Unset), None, 0, [], []), {FINALIZER}, true)
  const LAGGING := Tick(true, Stamp(0.0, 0, 2), Done, None, Done, Done, Done, None, None, 0.0, None, 0.0, [], false,
                        ["d"], _ => "", [Lag(2)])

  lemma AbandonedHonest()
    ensures Honest(ABANDONED, map["d" := THREE]) && IsScaledDownByOperator(ABANDONED.objects["d"])
  {
    assert HALF.annotations - COST_KEYS == THREE.annotations;
    assert Held(HALF, THREE) && Held(DOWN, THREE) && Free(THREE, THREE);
    assert ABANDONED.Revisions() == [map["d" := THREE], map["d" := HALF], map["d" := DOWN]];
  }

  lemma AbandonedCleanup(w: World)
    requires w == ABANDONED.(script := LAGGING.script)
    ensures Cleanup(w, ["d"]) == (w.Called(), true)
  {
    assert w.Revisions()[0] == map["d" := THREE];
    assert Items(w.Seen(), ["d"]) == [Item("d", THREE)] by {
      assert ["d"][1..] == [];
    }
    assert w.List(["d"]) == (w.Called(), Some([Item("d", THREE)]));
    var items := [Item("d", THREE)];
    assert items[1..] == [];
    assert !IsScaledDownByOperator(items[0].deployment);
    assert RestoreEach(w.Called(), items) == RestoreEach(w.Called(), items[1..]);
  }

  /** A cleanup that lists a stale revision may see no mark and let the finalizer go: one marked Deployment is left. */
  lemma StaleCleanupAbandons(cfg: Config)
    ensures var s := System(Some(DELETED), map[], ABANDONED, []);
            var s' := Reconcile(cfg, s, LAGGING).0;
            && Guarded(s, map["d" := THREE]) && Lists(LAGGING.order, s.world.objects)
            && s'.budget.None? && "d" in s'.world.objects && IsScaledDownByOperator(s'.world.objects["d"])
  {
    AbandonedHonest();
    AbandonedCleanup(ABANDONED.(script := LAGGING.script));
    assert DELETED.finalizers - {FINALIZER} == {};
  }

  // ------------------------------------------------------------------ the names one reconcile reports

  lemma {:induction false} FilterIdleNames(w: World, idle: seq<IdleWorkload>, exclusions: seq<Exclusion>)
    requires DistinctNames(idle)
    ensures var (w', kept) := FilterIdle(w, idle, exclusions);
            && (Fresh(w.script) ==> Fresh(w'.script)) && DistinctNames(kept)
            && forall i :: 0 <= i < |kept| ==> kept[i] in idle
    decreases |idle|
  {
    if idle != [] {
      var w1 := if NameExcluded(idle[0].name, exclusions) then w else w.Called();
      FilterIdleNames(w1, idle[1..], exclusions);
      var rest := FilterIdle(w1, idle[1..], exclusions).1;
      forall i | 0 <= i < |rest| ensures rest[i].name != idle[0].name {
        var k :| 0 <= k < |idle[1..]| && idle[1..][k] == rest[i];
        assert idle[k + 1] == rest[i];
      }
    }
  }

  /** The names in one notification are distinct exactly if no suspension follows, or its list fails, or the list shows
      every workload scaled down just before as one to be spared. */
  lemma ReportedNamesExact(w: World, phase: Phase, spec: Spec, t: Tick)
    requires Distinct(t.order) && (t.idle.Some? ==> DistinctNames(t.idle.value))
    ensures var (w1, actionable) := Detect(w, phase, spec, t);
            var (w2, affected) :=
              if Pressed(phase) then ScaleIdle(w1, NamesOf(actionable.GetOr([])), t.clock) else (w1, []);
            var items := w2.List(t.order).1;
            Distinct(Act(w1, phase, actionable.GetOr([]), spec, t).1)
            <==> (phase.Suspended? && items.Some? ==>
                    forall i :: 0 <= i < |items.value| && items.value[i].name in affected ==>
                      Spared(items.value[i], spec.exclusions))
  {
    if Pressed(phase) && t.idle.Some? {
      FilterIdleNames(w, t.idle.value, spec.exclusions);
    }
    var (w1, actionable) := Detect(w, phase, spec, t);
    var names := NamesOf(actionable.GetOr([]));
    if Pressed(phase) {
      ScaleIdleNames(w1, names, t.clock);
      AffectedNamesExact(w1, names, t.order, spec.exclusions, t.clock);
      var affected := ScaleIdle(w1, names, t.clock).1;
      assert affected + [] == affected;
    }
  }

  /** With current reads they are always distinct, since detection returns each name once. */
  lemma ReportedNamesDistinct(w: World, phase: Phase, spec: Spec, t: Tick)
    requires Fresh(w.script) && Distinct(t.order) && (t.idle.Some? ==> DistinctNames(t.idle.value))
    ensures var (w1, actionable) := Detect(w, phase, spec, t);
            Distinct(Act(w1, phase, actionable.GetOr([]), spec, t).1)
  {
    if Pressed(phase) && t.idle.Some? {
      FilterIdleNames(w, t.idle.value, spec.exclusions);
    }
    var (w1, actionable) := Detect(w, phase, spec, t);
    var names := NamesOf(actionable.GetOr([]));
    if Pressed(phase) {
      AffectedNamesDistinct(w1, names, t.order, spec.exclusions, t.clock);
      ScaleIdleSettles(w1, names, t.clock);
      var affected := ScaleIdle(w1, names, t.clock).1;
      assert affected + [] == affected;
    }
  }

  // ------------------------------------------------------------------ exclusion over a whole reconcile

  lemma ActSparesExcluded(w: World, phase: Phase, actionable: seq<IdleWorkload>, spec: Spec, t: Tick, name: string)
    requires name in w.objects && AlwaysExcluded(w, name, spec.exclusions)
    requires forall x :: x in actionable ==> x.name != name
    ensures Untouched(w, Act(w, phase, actionable, spec, t).0, name)
  {
    assert w.Revisions()[|w.past|] == w.objects;
    var w1 := w;
    if Pressed(phase) {
      ScaleIdleLeavesOthers(w, NamesOf(actionable), t.clock, name);
      w1 := ScaleIdle(w, NamesOf(actionable), t.clock).0;
      UntouchedNow(w, w1, name);
      UntouchedExcluded(w, w1, name, spec.exclusions);
    }
    if phase.Suspended? {
      SuspendAllSparesExcluded(w1, t.order, spec.exclusions, t.clock, name);
      UntouchedTransitive(w, w1, SuspendAll(w1, t.order, spec.exclusions, t.clock).0, name);
    }
  }

  lemma ObserveWorld(cfg: Config, s: System, b: Budget, st: Status, t: Tick)
    requires t.cpu.Some? && t.memory.Some?
    ensures var phase := DeterminePhase(BudgetPercent(b.spec, Measured(st, t).accumulated));
            var (w1, actionable) := Detect(s.world, phase, b.spec, t);
            var w := Observe(cfg, s, b, st, t).0.world;
            w == s.world || w == w1 || w == Act(w1, phase, actionable.GetOr([]), b.spec, t).0
  {
  }

  lemma SameRevisionsExcluded(w: World, w': World, name: string, exclusions: seq<Exclusion>)
    requires w'.Revisions() == w.Revisions() && AlwaysExcluded(w, name, exclusions) && name in w.objects
    ensures AlwaysExcluded(w', name, exclusions) && name in w'.objects && Untouched(w, w', name)
  {
    SameRevisionsUntouched(w, w', name);
    UntouchedNow(w, w', name);
  }

  lemma DetectSound(w: World, phase: Phase, spec: Spec, t: Tick, name: string)
    requires AlwaysExcluded(w, name, spec.exclusions)
    ensures var actionable := Detect(w, phase, spec, t).1;
            forall x :: x in actionable.GetOr([]) ==> x.name != name
  {
    if Pressed(phase) && t.idle.Some? {
      FilterIdleSound(w, t.idle.value, spec.exclusions, name);
    }
  }

  lemma ObserveSparesExcluded(cfg: Config, s: System, b: Budget, st: Status, t: Tick, name: string)
    requires name in s.world.objects && t.cpu.Some? && t.memory.Some?
    requires AlwaysExcluded(s.world, name, b.spec.exclusions)
    ensures Untouched(s.world, Observe(cfg, s, b, st, t).0.world, name)
  {
    var measured := Measured(st, t);
    var phase := DeterminePhase(BudgetPercent(b.spec, measured.accumulated));
    var (w1, actionable) := Detect(s.world, phase, b.spec, t);
    DetectKeeps(s.world, phase, b.spec, t);
    SameRevisionsExcluded(s.world, s.world, name, b.spec.exclusions);
    SameRevisionsExcluded(s.world, w1, name, b.spec.exclusions);
    DetectSound(s.world, phase, b.spec, t, name);
    var chosen := actionable.GetOr([]);
    ActSparesExcluded(w1, phase, chosen, b.spec, t, name);
    UntouchedTransitive(s.world, w1, Act(w1, phase, chosen, b.spec, t).0, name);
    ObserveWorld(cfg, s, b, st, t);
  }

  lemma ReconcileWorld(cfg: Config, s: System, t: Tick)
    requires s.budget.Some? && !s.budget.value.deleting
    ensures var s0 := s.(world := s.world.(script := t.script));
            var (s1, st) := RollOver(cfg, s0, s.budget.value.status, t);
            var w := Reconcile(cfg, s, t).0.world;
            || w == s0.world || w == s1.world
            || (t.cpu.Some? && t.memory.Some? && w == Observe(cfg, s1, s.budget.value, st, t).0.world)
  {
  }

  /** Over a whole reconcile of a live budget, from any cluster and whatever is measured, listed, read or refused,
      a Deployment excluded by name or by a well-formed selector keeps its replicas and annotations exactly,
      in every revision. */
  lemma ReconcileSparesExcluded(cfg: Config, s: System, t: Tick, name: string)
    requires s.budget.Some? && !s.budget.value.deleting
    requires name in s.world.objects && AlwaysExcluded(s.world, name, s.budget.value.spec.exclusions)
    ensures Untouched(s.world, Reconcile(cfg, s, t).0.world, name)
  {
    var s0, b := s.(world := s.world.(script := t.script)), s.budget.value;
    var (s1, st) := RollOver(cfg, s0, b.status, t);
    AtCleanupSame(cfg, s, t);
    assert s0.world.Revisions() == s.world.Revisions();
    ReconcileWorld(cfg, s, t);
    SameRevisionsExcluded(s.world, s0.world, name, b.spec.exclusions);
    SameRevisionsExcluded(s.world, s1.world, name, b.spec.exclusions);
    if t.cpu.Some? && t.memory.Some? {
      ObserveSparesExcluded(cfg, s1, b, st, t, name);
      UntouchedTransitive(s.world, s1.world, Observe(cfg, s1, b, st, t).0.world, name);
    }
  }

  lemma SameRevisionsUntouched(w: World, w': World, name: string)
    requires w'.Revisions() == w.Revisions() && name in w.objects
    ensures Untouched(w, w', name)
  {
    assert w.Revisions()[|w.past|] == w.objects;
  }

  /** Exclusion does not hold a mark in place when the budget is deleted: a Deployment that was marked before it was
      excluded is given its recorded count back and loses its mark, like any other. */
  lemma DeletionRestoresExcluded(cfg: Config, s: System, t: Tick, name: string)
    requires Finalizing(s) && Watched(s.budget) && t.readable && Fresh(t.script) && Lists(t.order, s.world.objects)
    requires !Watched(Reconcile(cfg, s, t).0.budget)
    requires name in s.world.objects && IsScaledDownByOperator(s.world.objects[name])
    requires AlwaysExcluded(s.world, name, s.budget.value.spec.exclusions)
    ensures var objects := Reconcile(cfg, s, t).0.world.objects;
            && name in objects && !IsScaledDownByOperator(objects[name])
            && objects[name] == Rescued(s.world.objects[name])
            && Some(Wanted(objects[name])) == Record(s.world.objects[name])
  {
    var w := AtCleanup(cfg, s, t);
    AtCleanupSame(cfg, s, t);
    RollOverBudget(cfg, s.(world := s.world.(script := t.script)), s.budget.value.status, t);
    CleanupDone(w, t.order);
  }
}
