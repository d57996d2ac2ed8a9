/** What every reachable Deployment looks like when the operator starts from Deployments that carry none of its four
    annotations: either as it was, or fully marked with the right record. Scale-down keeps this however stale its
    reads are; restoring keeps it exactly when it does not read a half-done scale-down that has since finished. */
module Provenance {
  import opened Options
  import opened Decimal
  import opened Deployments
  import opened Exclusions
  import opened ActionSpec
  import opened Recovery

  predicate Clean(d: Deployment) {
    forall k :: k in COST_KEYS ==> k !in d.annotations
  }

  /** `d` differs from the original `o` in nothing the operator does not own. */
  predicate SameApart(d: Deployment, o: Deployment) {
    d.labels == o.labels && d.annotations - COST_KEYS == o.annotations
  }

  /** The replicas are the original ones, possibly spelled out where they were left unset. */
  predicate Intact(d: Deployment, o: Deployment) {
    d.replicas == o.replicas || d.replicas == Some(Wanted(o))
  }

  predicate Free(d: Deployment, o: Deployment) {
    Clean(d) && SameApart(d, o) && Intact(d, o)
  }

  predicate Held(d: Deployment, o: Deployment) {
    && Wanted(o) != 0
    && SameApart(d, o)
    && COST_KEYS <= d.annotations.Keys
    && IsScaledDownByOperator(d)
    && d.annotations[ORIGINAL_REPLICAS] == FormatInt(Wanted(o))
    && d.annotations[REASON] == IDLE_REASON
    && (AtZero(d) || Intact(d, o))
  }

  /** All four annotations or none, and the count always recoverable. */
  predicate Faithful(d: Deployment, o: Deployment) {
    Free(d, o) || Held(d, o)
  }

  predicate AllFaithful(objects: Objects, origin: Objects) {
    objects.Keys == origin.Keys && forall name :: name in objects ==> Faithful(objects[name], origin[name])
  }

  predicate Honest(w: World, origin: Objects) {
    forall i :: 0 <= i < |w.Revisions()| ==> AllFaithful(w.Revisions()[i], origin)
  }

  predicate CleanOrigin(origin: Objects) {
    forall name :: name in origin ==> Clean(origin[name])
  }

  lemma CleanStart(origin: Objects, script: seq<Outcome>)
    requires CleanOrigin(origin)
    ensures Honest(World([], origin, script), origin)
  {
    forall name | name in origin ensures Free(origin[name], origin[name]) {
      assert origin[name].annotations - COST_KEYS == origin[name].annotations;
    }
  }

  lemma HonestNow(w: World, origin: Objects)
    requires Honest(w, origin)
    ensures AllFaithful(w.objects, origin) && AllFaithful(w.Seen(), origin)
  {
    assert w.Revisions()[|w.past|] == w.objects;
  }

  lemma PatchHonest(w: World, name: string, patch: Patch, origin: Objects)
    requires Honest(w, origin)
    requires name in w.objects && name in origin ==> Faithful(Apply(w.objects[name], patch), origin[name])
    ensures Honest(w.Patch(name, patch).0, origin)
  {
    HonestNow(w, origin);
    var w' := w.Patch(name, patch).0;
    assert AllFaithful(w'.objects, origin);
    if w'.past != w.past {
      assert forall i :: 0 <= i < |w.Revisions()| ==> w'.Revisions()[i] == w.Revisions()[i];
    }
  }

  lemma FaithfulCount(d: Deployment, o: Deployment)
    requires Faithful(d, o)
    ensures Effective(d) == Some(Wanted(o))
    ensures IsScaledDownByOperator(d) <==> Held(d, o)
    ensures SCALED_DOWN_AT in d.annotations <==> IsScaledDownByOperator(d)
    ensures (COST_KEYS <= d.annotations.Keys) == (d.annotations.Keys * COST_KEYS != {})
  {
    ParseFormat(Wanted(o));
    assert SCALED_DOWN_BY in COST_KEYS && SCALED_DOWN_AT in COST_KEYS;
    if Held(d, o) {
      assert SCALED_DOWN_AT in d.annotations.Keys * COST_KEYS;
    }
  }

  /** The annotations patch of a scale-down marks whatever state the server is in by then. */
  lemma MarkPatch(snapshot: Deployment, server: Deployment, o: Deployment, stamp: string)
    requires Free(snapshot, o) && Faithful(server, o) && !AtZero(snapshot)
    ensures Held(Apply(server, Diff(snapshot, Annotated(snapshot, stamp))), o)
    ensures Apply(server, Diff(snapshot, Annotated(snapshot, stamp))).replicas == server.replicas
    ensures Apply(server, Diff(snapshot, Annotated(snapshot, stamp))).annotations[SCALED_DOWN_AT] == stamp
  {
    var edited := Annotated(snapshot, stamp);
    var edits := Diff(snapshot, edited).annotations.edits;
    assert edits.Keys == COST_KEYS;
    var d := Apply(server, Diff(snapshot, edited));
    assert d.annotations - COST_KEYS == server.annotations - COST_KEYS;
    if AtZero(server) {
      assert !Free(server, o);
    }
  }

  lemma ZeroPatch(d: Deployment, o: Deployment)
    requires Held(d, o)
    ensures Apply(d, Diff(d, WithReplicas(d, 0))) == WithReplicas(d, 0)
    ensures Held(WithReplicas(d, 0), o)
  {
    ApplyDiff(d, WithReplicas(d, 0));
  }

  lemma StripHeld(d: Deployment, o: Deployment)
    requires Faithful(d, o) && Intact(d, o)
    ensures Apply(d, Diff(d, Stripped(d))) == Stripped(d)
    ensures Free(Stripped(d), o)
  {
    ApplyDiff(d, Stripped(d));
    assert Stripped(d).annotations - COST_KEYS == Stripped(d).annotations;
  }

  /** Scale-down of a Deployment keeps every revision faithful, whichever revisions its reads return. */
  lemma ScaleDownHonest(w: World, name: string, clock: Clock, origin: Objects)
    requires Honest(w, origin)
    ensures Honest(ScaleDown(w, name, clock).0, origin)
  {
    HonestNow(w, origin);
    var (w1, got) := w.Get(name);
    if got.Some? {
      var d, o := got.value, origin[name];
      FaithfulCount(d, o);
      HonestNow(w1, origin);
      if !IsScaledDownByOperator(d) && !AtZero(d) {
        var mark := Diff(d, Annotated(d, clock(|w1.past|)));
        MarkPatch(d, w1.objects[name], o, clock(|w1.past|));
        PatchHonest(w1, name, mark, origin);
        var (w2, reply) := w1.Patch(name, mark);
        if reply.Some? {
          ZeroPatch(reply.value, o);
          PatchHonest(w2, name, Diff(reply.value, WithReplicas(reply.value, 0)), origin);
        }
      }
    }
  }

  lemma {:induction false} ScaleIdleHonest(w: World, names: seq<string>, clock: Clock, origin: Objects)
    requires Honest(w, origin)
    ensures Honest(ScaleIdle(w, names, clock).0, origin)
    decreases |names|
  {
    if names != [] {
      ScaleDownHonest(w, names[0], clock, origin);
      ScaleIdleHonest(ScaleDown(w, names[0], clock).0, names[1..], clock, origin);
    }
  }

  lemma {:induction false} SuspendEachHonest(w: World, items: seq<Item>, exclusions: seq<Exclusion>, clock: Clock,
                                             origin: Objects)
    requires Honest(w, origin)
    ensures Honest(SuspendEach(w, items, exclusions, clock).0, origin)
    decreases |items|
  {
    if items == [] {
    } else if Spared(items[0], exclusions) {
      SuspendEachHonest(w, items[1..], exclusions, clock, origin);
    } else {
      ScaleDownHonest(w, items[0].name, clock, origin);
      SuspendEachHonest(ScaleDown(w, items[0].name, clock).0, items[1..], exclusions, clock, origin);
    }
  }

  lemma SuspendAllHonest(w: World, order: seq<string>, exclusions: seq<Exclusion>, clock: Clock, origin: Objects)
    requires Honest(w, origin)
    ensures Honest(SuspendAll(w, order, exclusions, clock).0, origin)
  {
    var (w1, items) := w.List(order);
    if items.Some? {
      SuspendEachHonest(w1, items.value, exclusions, clock, origin);
    }
  }

  // ------------------------------------------------------------------ restoring, from any snapshot

  /** The snapshot shows a scale-down between its two patches; the server already has the second. */
  predicate Overtaken(snapshot: Deployment, server: Deployment) {
    && IsScaledDownByOperator(snapshot) && snapshot.replicas.Some? && snapshot.replicas == Record(snapshot)
    && AtZero(server)
  }

  /** The replicas patch of a restore brings the count back whatever state the server is in, unless it is overtaken:
      then the patch is empty and the zero stays. */
  lemma ReplicasPatch(snapshot: Deployment, server: Deployment, o: Deployment)
    requires Held(snapshot, o) && Faithful(server, o)
    ensures Record(snapshot) == Some(Wanted(o))
    ensures var d := Apply(server, Diff(snapshot, WithReplicas(snapshot, Wanted(o))));
            if Overtaken(snapshot, server) then d == server && AtZero(server) else Faithful(d, o) && Intact(d, o)
  {
    FaithfulCount(snapshot, o);
    var patch := Diff(snapshot, WithReplicas(snapshot, Wanted(o)));
    assert patch.annotations == Merge(map[]);
    assert Apply(server, patch).annotations == server.annotations;
  }

  /** A Deployment stripped at zero has lost the count it had. */
  lemma StrippedLost(d: Deployment, o: Deployment)
    requires Wanted(o) != 0 && AtZero(d)
    ensures Apply(d, Diff(d, Stripped(d))) == Stripped(d)
    ensures !Faithful(Stripped(d), o) && Effective(Stripped(d)) == Some(0)
  {
    ApplyDiff(d, Stripped(d));
    assert SCALED_DOWN_BY in COST_KEYS && !IsScaledDownByOperator(Stripped(d));
  }

  /** The next two patches take effect, and the reply to the first arrives. */
  predicate BothLand(w: World) {
    !w.Head().Refused? && !w.Head().ReplyLost? && !w.Called().Head().Refused?
  }

  /** A patch to an unfaithful state shows in the history if it lands. */
  lemma LostPatch(w: World, name: string, patch: Patch, origin: Objects)
    requires Honest(w, origin) && name in w.objects && name in origin
        && !Faithful(Apply(w.objects[name], patch), origin[name])
    ensures Honest(w.Patch(name, patch).0, origin) <==> w.Head().Refused?
  {
    var w' := w.Patch(name, patch).0;
    if Honest(w', origin) {
      HonestNow(w', origin);
    }
  }

  /** The second patch of a restore, after which the count is lost exactly if the first left a zero. */
  lemma StripCurrent(w: World, name: string, origin: Objects)
    requires Honest(w, origin) && name in w.objects && name in origin
    requires Wanted(origin[name]) != 0 && (AtZero(w.objects[name]) || Intact(w.objects[name], origin[name]))
    ensures var d := w.objects[name];
            var w' := w.Patch(name, Diff(d, Stripped(d))).0;
            var lost := AtZero(d) && !w.Head().Refused?;
            && (Honest(w', origin) <==> !lost)
            && name in w'.objects
            && Effective(w'.objects[name]) == Some(if lost then 0 else Wanted(origin[name]))
  {
    HonestNow(w, origin);
    var d, o := w.objects[name], origin[name];
    FaithfulCount(d, o);
    if AtZero(d) {
      StrippedLost(d, o);
      LostPatch(w, name, Diff(d, Stripped(d)), origin);
    } else {
      StripHeld(d, o);
      FaithfulCount(Stripped(d), o);
      PatchHonest(w, name, Diff(d, Stripped(d)), origin);
    }
  }

  lemma FirstPatch(w: World, name: string, snapshot: Deployment, origin: Objects)
    requires Honest(w, origin) && name in w.objects && name in origin && Held(snapshot, origin[name])
    ensures Record(snapshot) == Some(Wanted(origin[name]))
    ensures var (w1, reply) := w.Patch(name, Diff(snapshot, WithReplicas(snapshot, Wanted(origin[name]))));
            && Honest(w1, origin) && name in w1.objects
            && (reply.None? || reply.value == w1.objects[name])
            && (reply.None? || if Overtaken(snapshot, w.objects[name]) then AtZero(reply.value)
                               else !AtZero(reply.value) && Intact(reply.value, origin[name]))
  {
    HonestNow(w, origin);
    ReplicasPatch(snapshot, w.objects[name], origin[name]);
    PatchHonest(w, name, Diff(snapshot, WithReplicas(snapshot, Wanted(origin[name]))), origin);
  }

  lemma RestoreFromIs(w: World, name: string, snapshot: Deployment)
    requires IsScaledDownByOperator(snapshot) && Record(snapshot).Some?
    ensures var (w1, reply) := w.Patch(name, Diff(snapshot, WithReplicas(snapshot, Record(snapshot).value)));
            RestoreFrom(w, name, snapshot).0
              == if reply.None? then w1 else w1.Patch(name, Diff(reply.value, Stripped(reply.value))).0
  {
  }

  lemma FirstReply(w: World, name: string, patch: Patch)
    requires name in w.objects
    ensures var (w1, reply) := w.Patch(name, patch);
            reply.Some? && !w1.Head().Refused? <==> BothLand(w)
  {
  }

  /** Restoring from any snapshot of the lifecycle, fresh or stale, with any calls failing: everything stays faithful
      unless the snapshot has been overtaken and both patches land. Then the record goes while the zero stays. */
  lemma StaleRestore(w: World, name: string, snapshot: Deployment, origin: Objects)
    requires Honest(w, origin) && name in w.objects && name in origin && Faithful(snapshot, origin[name])
    ensures var w' := RestoreFrom(w, name, snapshot).0;
            var lost := Overtaken(snapshot, w.objects[name]) && BothLand(w);
            && (Honest(w', origin) <==> !lost)
            && name in w'.objects
            && Effective(w'.objects[name]) == if lost then Some(0) else Effective(w.objects[name])
  {
    HonestNow(w, origin);
    var o := origin[name];
    FaithfulCount(snapshot, o);
    FaithfulCount(w.objects[name], o);
    if IsScaledDownByOperator(snapshot) {
      StaleRestoreHeld(w, name, snapshot, origin);
    }
  }

  lemma StaleRestoreHeld(w: World, name: string, snapshot: Deployment, origin: Objects)
    requires Honest(w, origin) && name in w.objects && name in origin && Held(snapshot, origin[name])
    ensures var w' := RestoreFrom(w, name, snapshot).0;
            var lost := Overtaken(snapshot, w.objects[name]) && BothLand(w);
            && (Honest(w', origin) <==> !lost)
            && name in w'.objects
            && Effective(w'.objects[name]) == Some(if lost then 0 else Wanted(origin[name]))
  {
    FirstPatch(w, name, snapshot, origin);
    RestoreFromIs(w, name, snapshot);
    var patch := Diff(snapshot, WithReplicas(snapshot, Wanted(origin[name])));
    FirstReply(w, name, patch);
    var (w1, reply) := w.Patch(name, patch);
    HonestNow(w1, origin);
    FaithfulCount(w1.objects[name], origin[name]);
    if reply.Some? {
      StripCurrent(w1, name, origin);
    }
  }

  /** What `Restore` reads has not been overtaken. */
  predicate RestoreSound(w: World, name: string) {
    var (w1, got) := w.Get(name);
    got.Some? && name in w1.objects ==> !Overtaken(got.value, w1.objects[name])
  }

  lemma RestoreHonest(w: World, name: string, origin: Objects)
    requires Honest(w, origin) && RestoreSound(w, name)
    ensures Honest(Restore(w, name).0, origin)
  {
    HonestNow(w, origin);
    var (w1, got) := w.Get(name);
    if got.Some? {
      StaleRestore(w1, name, got.value, origin);
    }
  }

  /** The same for each read of a cleanup, when its turn comes. */
  predicate EachSound(w: World, items: seq<Item>)
    decreases |items|
  {
    items == []
    || if !IsScaledDownByOperator(items[0].deployment) then EachSound(w, items[1..])
       else RestoreSound(w, items[0].name)
            && (Restore(w, items[0].name).1 ==> EachSound(Restore(w, items[0].name).0, items[1..]))
  }

  lemma {:induction false} RestoreEachHonest(w: World, items: seq<Item>, origin: Objects)
    requires Honest(w, origin) && EachSound(w, items)
    ensures Honest(RestoreEach(w, items).0, origin)
    decreases |items|
  {
    if items == [] {
    } else if !IsScaledDownByOperator(items[0].deployment) {
      RestoreEachHonest(w, items[1..], origin);
    } else {
      RestoreHonest(w, items[0].name, origin);
      if Restore(w, items[0].name).1 {
        RestoreEachHonest(Restore(w, items[0].name).0, items[1..], origin);
      }
    }
  }

  lemma ReleaseHeld(d: Deployment, o: Deployment)
    requires Held(d, o)
    ensures Record(d) == Some(Wanted(o))
    ensures Apply(d, Diff(d, Released(d, Wanted(o)))) == Released(d, Wanted(o))
    ensures Free(Released(d, Wanted(o)), o)
    ensures Released(d, Wanted(o)) == o.(replicas := Some(Wanted(o)))
  {
    FaithfulCount(d, o);
    ApplyDiff(d, Released(d, Wanted(o)));
    StripHeld(WithReplicas(d, Wanted(o)), o);
  }

  lemma ReleasePatch(snapshot: Deployment, server: Deployment, o: Deployment)
    requires Held(snapshot, o) && Faithful(server, o)
    ensures Record(snapshot) == Some(Wanted(o))
    ensures var d := Apply(server, Diff(snapshot, Released(snapshot, Wanted(o))));
            if Overtaken(snapshot, server) then !Faithful(d, o) && Effective(d) == Some(0) else Free(d, o)
  {
    FaithfulCount(snapshot, o);
    var edited := Released(snapshot, Wanted(o));
    var d := Apply(server, Diff(snapshot, edited));
    assert d.annotations - COST_KEYS == d.annotations && d.annotations == server.annotations - COST_KEYS by {
      ReleasedAnnotations(snapshot, server, o);
    }
    assert SCALED_DOWN_BY in COST_KEYS && SCALED_DOWN_BY !in d.annotations;
  }

  lemma ReleasedAnnotations(snapshot: Deployment, server: Deployment, o: Deployment)
    requires Held(snapshot, o) && Faithful(server, o)
    ensures Apply(server, Diff(snapshot, Released(snapshot, Wanted(o)))).annotations == server.annotations - COST_KEYS
  {
    var edited := Released(snapshot, Wanted(o));
    assert SCALED_DOWN_BY in snapshot.annotations;
    assert edited.annotations == o.annotations;
    if o.annotations == map[] {
      assert server.annotations - COST_KEYS == map[];
    } else {
      assert forall k :: k in Diff(snapshot, edited).annotations.edits <==> k in COST_KEYS;
    }
  }

  /** The command's single patch has the same exception. */
  lemma StaleCliRestore(w: World, name: string, snapshot: Deployment, origin: Objects)
    requires Honest(w, origin) && name in w.objects && name in origin && Faithful(snapshot, origin[name])
    ensures var w' := CliRestoreOne(w, name, snapshot).0;
            var lost := Overtaken(snapshot, w.objects[name]) && !w.Head().Refused?;
            && (Honest(w', origin) <==> !lost)
            && name in w'.objects
            && Effective(w'.objects[name]) == if lost then Some(0) else Effective(w.objects[name])
  {
    HonestNow(w, origin);
    var o := origin[name];
    FaithfulCount(snapshot, o);
    FaithfulCount(w.objects[name], o);
    if IsScaledDownByOperator(snapshot) {
      ReleasePatch(snapshot, w.objects[name], o);
      var patch := Diff(snapshot, Released(snapshot, Wanted(o)));
      if Overtaken(snapshot, w.objects[name]) {
        LostPatch(w, name, patch, origin);
      } else {
        FaithfulCount(Apply(w.objects[name], patch), o);
        PatchHonest(w, name, patch, origin);
      }
    }
  }

  predicate DistinctItems(items: seq<Item>) {
    forall i, j :: 0 <= i < j < |items| ==> items[i].name != items[j].name
  }

  /** None of the copies the command has listed has been overtaken. */
  predicate ListSound(w: World, items: seq<Item>) {
    DistinctItems(items)
    && forall i :: 0 <= i < |items| && items[i].name in w.objects ==>
        !Overtaken(items[i].deployment, w.objects[items[i].name])
  }

  predicate FaithfulItems(items: seq<Item>, origin: Objects) {
    forall i :: 0 <= i < |items| ==> items[i].name in origin && Faithful(items[i].deployment, origin[items[i].name])
  }

  lemma FaithfulItemsNext(items: seq<Item>, origin: Objects)
    requires items != [] && FaithfulItems(items, origin)
    ensures FaithfulItems(items[1..], origin)
  {
  }

  lemma ListSoundNext(w: World, w': World, items: seq<Item>)
    requires items != [] && ListSound(w, items)
    requires w'.objects.Keys == w.objects.Keys
    requires forall name :: name in w.objects && name != items[0].name ==> w'.objects[name] == w.objects[name]
    ensures ListSound(w', items[1..])
  {
    var rest := items[1..];
    forall i | 0 <= i < |rest| && rest[i].name in w'.objects
      ensures !Overtaken(rest[i].deployment, w'.objects[rest[i].name])
    {
      assert rest[i] == items[i + 1];
    }
  }

  lemma {:induction false} CliRestoreEachHonest(w: World, items: seq<Item>, origin: Objects)
    requires Honest(w, origin) && ListSound(w, items) && FaithfulItems(items, origin)
    ensures Honest(CliRestoreEach(w, items).0, origin)
    decreases |items|
  {
    if items != [] {
      var name, d := items[0].name, items[0].deployment;
      HonestNow(w, origin);
      StaleCliRestore(w, name, d, origin);
      var w1 := CliRestoreOne(w, name, d).0;
      ListSoundNext(w, w1, items);
      FaithfulItemsNext(items, origin);
      CliRestoreEachHonest(w1, items[1..], origin);
    }
  }

  /** A listed copy is what some revision held. */
  lemma {:induction false} ItemsFaithful(objects: Objects, order: seq<string>, origin: Objects)
    requires AllFaithful(objects, origin)
    ensures FaithfulItems(Items(objects, order), origin)
  {
    if order != [] {
      ItemsFaithful(objects, order[1..], origin);
    }
  }

  // ------------------------------------------------------------------ runs

  /** Scale-down may read any revision, and so may restoring, unless it reads a half-done scale-down
      that has finished since. */
  predicate Admissible(w: World, op: Op) {
    match op
    case RestoreOp(name) => RestoreSound(w, name)
    case CleanupOp(order) => var (w1, items) := w.List(order); items.Some? ==> EachSound(w1, items.value)
    case CliOp(order) => var (w1, items) := w.List(order); items.Some? ==> ListSound(w1, items.value)
    case _ => true
  }

  lemma PerformHonest(w: World, op: Op, origin: Objects)
    requires Honest(w, origin) && Admissible(w, op)
    ensures Honest(Perform(w, op), origin)
  {
    match op
    case ScaleDownOp(name, clock) => ScaleDownHonest(w, name, clock, origin);
    case ScaleIdleOp(names, clock) => ScaleIdleHonest(w, names, clock, origin);
    case SuspendOp(order, exclusions, clock) => SuspendAllHonest(w, order, exclusions, clock, origin);
    case RestoreOp(name) => RestoreHonest(w, name, origin);
    case CleanupOp(order) =>
      var (w1, items) := w.List(order);
      if items.Some? { RestoreEachHonest(w1, items.value, origin); }
    case CliOp(order) =>
      var (w1, items) := w.List(order);
      if items.Some? {
        HonestNow(w, origin);
        ItemsFaithful(w.Seen(), order, origin);
        CliRestoreEachHonest(w1, items.value, origin);
      }
  }

  predicate AllAdmissible(w: World, steps: seq<Step>)
    decreases |steps|
  {
    if steps == [] then true
    else
      var w0 := w.(script := steps[0].script);
      Admissible(w0, steps[0].op) && AllAdmissible(Perform(w0, steps[0].op), steps[1..])
  }

  /** From clean Deployments, over any run with any faults and with reads arbitrarily stale, except that nothing is
      restored from an overtaken copy: every revision carries all four annotations or none on each Deployment,
      the record equals the original count, and nothing else was ever touched. */
  lemma {:induction false} RunHonest(w: World, steps: seq<Step>, origin: Objects)
    requires Honest(w, origin) && AllAdmissible(w, steps)
    ensures Honest(Run(w, steps), origin)
    decreases |steps|
  {
    if steps != [] {
      var w0 := w.(script := steps[0].script);
      assert w0.Revisions() == w.Revisions();
      PerformHonest(w0, steps[0].op, origin);
      RunHonest(Perform(w0, steps[0].op), steps[1..], origin);
    }
  }

  lemma {:induction false} FreshEachSound(w: World, items: seq<Item>, origin: Objects)
    requires Honest(w, origin) && Fresh(w.script)
    ensures EachSound(w, items)
    decreases |items|
  {
    if items == [] {
    } else if !IsScaledDownByOperator(items[0].deployment) {
      FreshEachSound(w, items[1..], origin);
    } else {
      FreshRestoreSound(w, items[0].name, origin);
      RestoreHonest(w, items[0].name, origin);
      RestoreFresh(w, items[0].name);
      FreshEachSound(Restore(w, items[0].name).0, items[1..], origin);
    }
  }

  lemma RestoreFresh(w: World, name: string)
    requires Fresh(w.script)
    ensures Fresh(Restore(w, name).0.script)
  {
  }

  /** A current copy is never overtaken. */
  lemma FreshRestoreSound(w: World, name: string, origin: Objects)
    requires Honest(w, origin) && Fresh(w.script)
    ensures RestoreSound(w, name)
  {
    HonestNow(w, origin);
    if name in origin {
      FaithfulCount(w.objects[name], origin[name]);
    }
  }

  /** Reads of the current revision are always admissible. */
  lemma FreshAdmissible(w: World, op: Op, origin: Objects)
    requires Honest(w, origin) && Fresh(w.script) && WellFormed(op)
    ensures Admissible(w, op)
  {
    match op
    case RestoreOp(name) => FreshRestoreSound(w, name, origin);
    case CleanupOp(order) =>
      var (w1, items) := w.List(order);
      if items.Some? { FreshEachSound(w1, items.value, origin); }
    case CliOp(order) =>
      ItemsCurrent(w.objects, order);
      HonestNow(w, origin);
      forall name | name in w.objects ensures !Overtaken(w.objects[name], w.objects[name]) {
        FaithfulCount(w.objects[name], origin[name]);
      }
    case _ =>
  }

  /** So a run whose restores, cleanups and commands read the current revision is admissible, whatever its
      scale-downs read. */
  lemma {:induction false} FreshRunAdmissible(w: World, steps: seq<Step>, origin: Objects)
    requires Honest(w, origin)
    requires forall i :: 0 <= i < |steps| ==>
               var op := steps[i].op;
               WellFormed(op) && (op.RestoreOp? || op.CleanupOp? || op.CliOp? ==> Fresh(steps[i].script))
    ensures AllAdmissible(w, steps)
    decreases |steps|
  {
    if steps != [] {
      var w0, op := w.(script := steps[0].script), steps[0].op;
      assert w0.Revisions() == w.Revisions();
      if op.RestoreOp? || op.CleanupOp? || op.CliOp? {
        FreshAdmissible(w0, op, origin);
      }
      PerformHonest(w0, op, origin);
      FreshRunAdmissible(Perform(w0, op), steps[1..], origin);
    }
  }

  // ------------------------------------------------------------------ one call from a stale snapshot

  /** The scale-down of a Deployment read as `snapshot`, when no call fails. */
  function ScaledDownFrom(snapshot: Deployment, server: Deployment, stamp: string): Deployment {
    ScaleDownFrom(World([], map["d" := server], []), "d", snapshot, _ => stamp).0.objects["d"]
  }

  lemma ScaledDownFromIs(snapshot: Deployment, server: Deployment, stamp: string)
    requires !IsScaledDownByOperator(snapshot) && !AtZero(snapshot)
    ensures var reply := Apply(server, Diff(snapshot, Annotated(snapshot, stamp)));
            ScaledDownFrom(snapshot, server, stamp) == Apply(reply, Diff(reply, WithReplicas(reply, 0)))
  {
    var w := World([], map["d" := server], []);
    var mark := Diff(snapshot, Annotated(snapshot, stamp));
    assert w.Patch("d", mark).0.objects["d"] == Apply(server, mark);
  }

  /** A scale-down that starts from any unmarked snapshot of the lifecycle ends marked at zero with the same record,
      even if the server already holds the half-done or the finished state; from a marked snapshot it does nothing. */
  lemma StaleScaleDown(snapshot: Deployment, server: Deployment, o: Deployment, stamp: string)
    requires Faithful(snapshot, o) && Faithful(server, o)
    ensures var d := ScaledDownFrom(snapshot, server, stamp);
            if Held(snapshot, o) || AtZero(snapshot) then d == server
            else Held(d, o) && AtZero(d) && Effective(d) == Effective(server)
  {
    FaithfulCount(snapshot, o);
    FaithfulCount(server, o);
    if !Held(snapshot, o) && !AtZero(snapshot) {
      MarkPatch(snapshot, server, o, stamp);
      ScaledDownFromIs(snapshot, server, stamp);
      var reply := Apply(server, Diff(snapshot, Annotated(snapshot, stamp)));
      ZeroPatch(reply, o);
      FaithfulCount(WithReplicas(reply, 0), o);
    }
  }

  /** A concrete loss: three replicas, marked but not yet zero when read, zero when patched. */
  lemma StaleRestoreLoses()
    ensures exists w, snapshot, origin ::
              && Honest(w, origin) && "d" in w.objects && "d" in origin && Faithful(snapshot, origin["d"])
              && Effective(w.objects["d"]) == Some(3)
              && Effective(RestoreFrom(w, "d", snapshot).0.objects["d"]) == Some(0)
  {
    var o := Deployment(map[], Some(3), map[]);
    var snapshot := Annotated(o, "2026-01-01T00:00:00Z");
    var origin, w := map["d" := o], World([], map["d" := WithReplicas(snapshot, 0)], []);
    assert snapshot.annotations - COST_KEYS == o.annotations;
    assert Held(snapshot, o) && Held(w.objects["d"], o);
    FaithfulCount(w.objects["d"], o);
    FaithfulCount(snapshot, o);
    StaleRestore(w, "d", snapshot, origin);
    assert Honest(w, origin) && "d" in w.objects && "d" in origin && Faithful(snapshot, origin["d"])
        && Effective(w.objects["d"]) == Some(3)
           && Effective(RestoreFrom(w, "d", snapshot).0.objects["d"]) == Some(0);
  }

  lemma ForeignRecord(snapshot: Deployment, server: Deployment, stamp: string)
    requires Clean(snapshot)
    ensures var reply := Apply(server, Diff(snapshot, Annotated(snapshot, stamp)));
            IsScaledDownByOperator(reply) && Record(reply) == Some(Wanted(snapshot))
  {
    assert Diff(snapshot, Annotated(snapshot, stamp)).annotations.edits.Keys == COST_KEYS;
    ParseFormat(Wanted(snapshot));
  }

  /** When somebody else changed the replicas after the snapshot was taken, a scale-down records the snapshot's count:
      the count survives exactly when the two agree. */
  lemma ForeignEdit(snapshot: Deployment, server: Deployment, stamp: string)
    requires Clean(snapshot) && Clean(server) && !AtZero(snapshot)
    ensures Effective(ScaledDownFrom(snapshot, server, stamp)) == Some(Wanted(snapshot))
    ensures Effective(ScaledDownFrom(snapshot, server, stamp)) == Effective(server)
        <==> Wanted(snapshot) == Wanted(server)
  {
    var reply := Apply(server, Diff(snapshot, Annotated(snapshot, stamp)));
    ForeignRecord(snapshot, server, stamp);
    ScaledDownFromIs(snapshot, server, stamp);
    ApplyDiff(reply, WithReplicas(reply, 0));
  }
}
