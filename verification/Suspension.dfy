/** What scale-down and suspension do to a namespace, and whom they leave alone. */
module Suspension {
  import opened Options
  import opened Deployments
  import opened Exclusions
  import opened ActionSpec
  import opened Recovery
  import opened Provenance

  /** History only grew from `w` to `w'`, and no revision written in between changed this Deployment. */
  predicate Untouched(w: World, w': World, name: string) {
    && name in w.objects
    && w.Revisions() <= w'.Revisions()
    && forall i :: |w.past| <= i < |w'.Revisions()| ==>
        name in w'.Revisions()[i] && w'.Revisions()[i][name] == w.objects[name]
  }

  lemma UntouchedNow(w: World, w': World, name: string)
    requires Untouched(w, w', name)
    ensures name in w'.objects && w'.objects[name] == w.objects[name]
  {
    assert w'.Revisions()[|w'.past|] == w'.objects;
  }

  lemma UntouchedTransitive(a: World, b: World, c: World, name: string)
    requires Untouched(a, b, name) && Untouched(b, c, name)
    ensures Untouched(a, c, name)
  {
    UntouchedNow(a, b, name);
    assert forall i :: 0 <= i < |b.Revisions()| ==> c.Revisions()[i] == b.Revisions()[i];
  }

  lemma PatchLeavesOthers(w: World, name: string, patch: Patch, other: string)
    requires other in w.objects && other != name
    ensures Untouched(w, w.Patch(name, patch).0, other)
  {
    var w' := w.Patch(name, patch).0;
    assert w.Revisions()[|w.past|] == w.objects;
    if w'.past != w.past {
      assert w'.Revisions()[..|w.Revisions()|] == w.Revisions();
    }
  }

  /** Whatever it reads, a scale-down writes to the Deployment it was given and to no other. */
  lemma ScaleDownLeavesOthers(w: World, name: string, clock: Clock, other: string)
    requires other in w.objects && other != name
    ensures Untouched(w, ScaleDown(w, name, clock).0, other)
  {
    var (w1, got) := w.Get(name);
    assert Untouched(w, w1, other);
    if got.Some? && !IsScaledDownByOperator(got.value) && !AtZero(got.value) {
      var mark := Diff(got.value, Annotated(got.value, clock(|w1.past|)));
      PatchLeavesOthers(w1, name, mark, other);
      var (w2, reply) := w1.Patch(name, mark);
      UntouchedTransitive(w, w1, w2, other);
      if reply.Some? {
        UntouchedNow(w, w2, other);
        var zero := Diff(reply.value, WithReplicas(reply.value, 0));
        PatchLeavesOthers(w2, name, zero, other);
        UntouchedTransitive(w, w2, w2.Patch(name, zero).0, other);
      }
    }
  }

  lemma {:induction false} ScaleIdleLeavesOthers(w: World, names: seq<string>, clock: Clock, other: string)
    requires other in w.objects && other !in names
    ensures Untouched(w, ScaleIdle(w, names, clock).0, other)
    decreases |names|
  {
    assert w.Revisions()[|w.past|] == w.objects;
    if names != [] {
      ScaleDownLeavesOthers(w, names[0], clock, other);
      var w1 := ScaleDown(w, names[0], clock).0;
      UntouchedNow(w, w1, other);
      ScaleIdleLeavesOthers(w1, names[1..], clock, other);
      UntouchedTransitive(w, w1, ScaleIdle(w1, names[1..], clock).0, other);
    }
  }

  lemma {:induction false} SuspendEachLeavesOthers(w: World, items: seq<Item>, exclusions: seq<Exclusion>, clock: Clock,
                                                   other: string)
    requires other in w.objects
    requires forall i :: 0 <= i < |items| && items[i].name == other ==> Spared(items[i], exclusions)
    ensures Untouched(w, SuspendEach(w, items, exclusions, clock).0, other)
    decreases |items|
  {
    assert w.Revisions()[|w.past|] == w.objects;
    if items == [] {
    } else if Spared(items[0], exclusions) {
      SuspendEachLeavesOthers(w, items[1..], exclusions, clock, other);
    } else {
      ScaleDownLeavesOthers(w, items[0].name, clock, other);
      var w1 := ScaleDown(w, items[0].name, clock).0;
      UntouchedNow(w, w1, other);
      SuspendEachLeavesOthers(w1, items[1..], exclusions, clock, other);
      UntouchedTransitive(w, w1, SuspendEach(w1, items[1..], exclusions, clock).0, other);
    }
  }

  lemma {:induction false} ItemsFrom(objects: Objects, order: seq<string>)
    ensures forall i :: 0 <= i < |Items(objects, order)| ==>
              var item := Items(objects, order)[i];
              item.name in objects && objects[item.name] == item.deployment
  {
    if order != [] {
      ItemsFrom(objects, order[1..]);
    }
  }

  /** Whatever revision a read returns, it shows the Deployment excluded, if it shows it at all. */
  predicate AlwaysExcluded(w: World, name: string, exclusions: seq<Exclusion>) {
    forall i :: 0 <= i < |w.Revisions()| && name in w.Revisions()[i] ==>
      Excluded(name, w.Revisions()[i][name].labels, exclusions)
  }

  lemma SeenExcluded(w: World, name: string, exclusions: seq<Exclusion>)
    requires AlwaysExcluded(w, name, exclusions)
    ensures name in w.Seen() ==> Excluded(name, w.Seen()[name].labels, exclusions)
  {
    assert w.Revisions()[|w.past|] == w.objects;
  }

  lemma UntouchedExcluded(w: World, w': World, name: string, exclusions: seq<Exclusion>)
    requires AlwaysExcluded(w, name, exclusions) && Untouched(w, w', name)
    ensures AlwaysExcluded(w', name, exclusions)
  {
    assert w.Revisions()[|w.past|] == w.objects;
    forall i | 0 <= i < |w'.Revisions()| && name in w'.Revisions()[i]
      ensures Excluded(name, w'.Revisions()[i][name].labels, exclusions)
    {
      if i < |w.past| {
        assert w'.Revisions()[i] == w.Revisions()[i];
      }
    }
  }

  /** A Deployment excluded by name or by a well-formed selector is never written by a suspension,
      whatever fails and however stale the list is. */
  lemma SuspendAllSparesExcluded(w: World, order: seq<string>, exclusions: seq<Exclusion>, clock: Clock, name: string)
    requires name in w.objects && AlwaysExcluded(w, name, exclusions)
    ensures Untouched(w, SuspendAll(w, order, exclusions, clock).0, name)
  {
    var (w1, items) := w.List(order);
    assert w1.objects == w.objects && w1.past == w.past;
    if items.None? {
      assert w.Revisions()[|w.past|] == w.objects;
    } else {
      SeenExcluded(w, name, exclusions);
      ItemsFrom(w.Seen(), order);
      SuspendEachLeavesOthers(w1, items.value, exclusions, clock, name);
    }
  }

  predicate Confirms(outcome: Outcome) {
    outcome.Done? || outcome.Lag?
  }

  /** Exactly when a scale-down reports success: the copy it reads is marked or at zero, or both patches
      are confirmed. */
  lemma ScaleDownSucceeds(w: World, name: string, clock: Clock)
    ensures var (w1, got) := w.Get(name);
            ScaleDown(w, name, clock).1
            <==> got.Some?
                 && (IsScaledDownByOperator(got.value) || AtZero(got.value)
                     || (name in w.objects && Confirms(w1.Head()) && Confirms(w1.Called().Head())))
  {
    var (w1, got) := w.Get(name);
    if got.Some? && !IsScaledDownByOperator(got.value) && !AtZero(got.value) && name in w.objects {
      var mark := Diff(got.value, Annotated(got.value, clock(|w1.past|)));
      assert w1.Patch(name, mark).0.script == w1.Called().script;
    }
  }

  /** With current reads a Deployment whose scale-down succeeded is marked from before, or at zero. */
  lemma ScaleDownReaches(w: World, name: string, clock: Clock)
    requires Fresh(w.script) && ScaleDown(w, name, clock).1
    ensures var objects := ScaleDown(w, name, clock).0.objects;
            && name in w.objects && name in objects
            && (if IsScaledDownByOperator(w.objects[name]) then objects[name] == w.objects[name]
                else AtZero(objects[name]))
  {
    var (w1, got) := w.Get(name);
    var d := w.objects[name];
    if !IsScaledDownByOperator(d) && !AtZero(d) {
      var marked := Annotated(d, clock(|w1.past|));
      PatchTo(w1, name, marked);
      var (w2, reply) := w1.Patch(name, Diff(d, marked));
      PatchTo(w2, name, WithReplicas(marked, 0));
    }
  }

  lemma ScaleDownFresh(w: World, name: string, clock: Clock)
    requires Fresh(w.script)
    ensures Fresh(ScaleDown(w, name, clock).0.script)
  {}

  /** A scale-down that reads the current revision never writes to a marked Deployment. In particular one that died
      between its two patches is not finished by a later reconcile: the Deployment keeps running. */
  lemma ScaleDownLeavesMarked(w: World, name: string, clock: Clock, marked: string)
    requires Fresh(w.script) && marked in w.objects && IsScaledDownByOperator(w.objects[marked])
    ensures Untouched(w, ScaleDown(w, name, clock).0, marked)
    ensures Fresh(ScaleDown(w, name, clock).0.script)
  {
    ScaleDownFresh(w, name, clock);
    if name != marked {
      ScaleDownLeavesOthers(w, name, clock, marked);
    } else {
      assert w.Revisions()[|w.past|] == w.objects;
      assert ScaleDown(w, name, clock).0 == w.Called();
    }
  }

  /** Exactly when a scale-down finishes one that died between its patches: if it reads a revision from before that one,
      and both its own patches land. */
  lemma HalfDoneFinished(w: World, name: string, clock: Clock, origin: Objects)
    requires Honest(w, origin) && name in w.objects
    requires IsScaledDownByOperator(w.objects[name]) && !AtZero(w.objects[name])
    ensures var got, w' := w.Get(name).1, ScaleDown(w, name, clock).0;
            && name in w'.objects
            && (AtZero(w'.objects[name])
                <==> got.Some? && !IsScaledDownByOperator(got.value) && !AtZero(got.value) && BothLand(w.Called()))
  {
    HonestNow(w, origin);
    var (w1, got) := w.Get(name);
    if got.Some? && !IsScaledDownByOperator(got.value) && !AtZero(got.value) {
      var d, o, stamp := got.value, origin[name], clock(|w1.past|);
      FaithfulCount(d, o);
      MarkPatch(d, w1.objects[name], o, stamp);
      var mark := Diff(d, Annotated(d, stamp));
      FirstReply(w1, name, mark);
      var (w2, reply) := w1.Patch(name, mark);
      if reply.Some? {
        ZeroPatch(reply.value, o);
      }
    }
  }

  lemma {:induction false} ScaleIdleLeavesMarked(w: World, names: seq<string>, clock: Clock, marked: string)
    requires Fresh(w.script) && marked in w.objects && IsScaledDownByOperator(w.objects[marked])
    ensures Untouched(w, ScaleIdle(w, names, clock).0, marked)
    ensures Fresh(ScaleIdle(w, names, clock).0.script)
    decreases |names|
  {
    assert w.Revisions()[|w.past|] == w.objects;
    if names != [] {
      ScaleDownLeavesMarked(w, names[0], clock, marked);
      var w1 := ScaleDown(w, names[0], clock).0;
      UntouchedNow(w, w1, marked);
      ScaleIdleLeavesMarked(w1, names[1..], clock, marked);
      UntouchedTransitive(w, w1, ScaleIdle(w1, names[1..], clock).0, marked);
    }
  }

  /** The same for whole runs of scale-downs and suspensions. */
  lemma {:induction false} HalfDoneStays(w: World, steps: seq<Step>, marked: string)
    requires marked in w.objects && IsScaledDownByOperator(w.objects[marked])
    requires forall i :: 0 <= i < |steps| ==> Fresh(steps[i].script)
    requires forall i :: 0 <= i < |steps| ==>
        steps[i].op.ScaleDownOp? || steps[i].op.ScaleIdleOp? || steps[i].op.SuspendOp?
    ensures Untouched(w, Run(w, steps), marked)
    decreases |steps|
  {
    assert w.Revisions()[|w.past|] == w.objects;
    if steps != [] {
      var w0 := w.(script := steps[0].script);
      assert w0.Revisions() == w.Revisions();
      var w1 := Perform(w0, steps[0].op);
      match steps[0].op {
        case ScaleDownOp(name, clock) => ScaleDownLeavesMarked(w0, name, clock, marked);
        case ScaleIdleOp(names, clock) => ScaleIdleLeavesMarked(w0, names, clock, marked);
        case SuspendOp(order, exclusions, clock) =>
          var (w2, items) := w0.List(order);
          assert Untouched(w0, w2, marked);
          if items.Some? {
            ItemsFrom(w0.objects, order);
            SuspendEachLeavesOthers(w2, items.value, exclusions, clock, marked);
          }
      }
      assert Untouched(w0, w1, marked);
      UntouchedNow(w0, w1, marked);
      HalfDoneStays(w1, steps[1..], marked);
      UntouchedTransitive(w, w1, Run(w1, steps[1..]), marked);
    }
  }

  // ------------------------------------------------------------------ without faults

  function Downed(d: Deployment, stamp: string): Deployment {
    WithReplicas(Annotated(d, stamp), 0)
  }

  /** `d'` is `d` suspended: left alone if marked or at zero, else marked at zero at some time. */
  predicate Suspended(d: Deployment, d': Deployment) {
    if IsScaledDownByOperator(d) || AtZero(d) then d' == d
    else SCALED_DOWN_AT in d'.annotations && d' == Downed(d, d'.annotations[SCALED_DOWN_AT])
  }

  lemma ScaleDownDone(w: World, name: string, clock: Clock)
    requires w.script == [] && name in w.objects
    ensures ScaleDown(w, name, clock).0.script == [] && ScaleDown(w, name, clock).1
    ensures var objects := ScaleDown(w, name, clock).0.objects;
            && objects.Keys == w.objects.Keys && Suspended(w.objects[name], objects[name])
            && (objects[name] != w.objects[name] ==> objects[name] == Downed(w.objects[name], clock(|w.past|)))
            && forall other :: other in w.objects && other != name ==> objects[other] == w.objects[other]
  {
    var d := w.objects[name];
    assert w.Seen() == w.objects;
    if !IsScaledDownByOperator(d) && !AtZero(d) {
      var stamp := clock(|w.past|);
      ApplyDiff(d, Annotated(d, stamp));
      ApplyDiff(Annotated(d, stamp), Downed(d, stamp));
    }
  }

  /** Scaling down again changes nothing, and being scaled down is lasting. */
  lemma SuspendedTwice(d: Deployment, d': Deployment, d'': Deployment)
    requires Suspended(d, d') && Suspended(d', d'')
    ensures d'' == d' && Suspended(d, d'')
  {
  }

  lemma {:induction false} ScaleIdleDone(w: World, names: seq<string>, clock: Clock)
    requires w.script == []
    ensures var (w', _) := ScaleIdle(w, names, clock);
            && w'.script == [] && w'.objects.Keys == w.objects.Keys
            && forall name :: name in w.objects ==>
                 if name in names then Suspended(w.objects[name], w'.objects[name])
                 else w'.objects[name] == w.objects[name]
    decreases |names|
  {
    if names != [] {
      var w1 := ScaleDown(w, names[0], clock).0;
      assert w.Seen() == w.objects;
      if names[0] in w.objects {
        ScaleDownDone(w, names[0], clock);
      }
      ScaleIdleDone(w1, names[1..], clock);
      assert forall name :: name in names <==> name == names[0] || name in names[1..];
    }
  }

  lemma {:induction false} SuspendEachDone(w: World, items: seq<Item>, exclusions: seq<Exclusion>, clock: Clock)
    requires w.script == [] && Current(items, w.objects)
    ensures var (w', names) := SuspendEach(w, items, exclusions, clock);
            && w'.script == [] && w'.objects.Keys == w.objects.Keys
            && (forall name :: name in w.objects ==>
                  if Item(name, w.objects[name]) in items && !Excluded(name, w.objects[name].labels, exclusions)
                  then Suspended(w.objects[name], w'.objects[name]) else w'.objects[name] == w.objects[name])
    decreases |items|
  {
    if items != [] {
      var w1 := if Spared(items[0], exclusions) then w else ScaleDown(w, items[0].name, clock).0;
      if !Spared(items[0], exclusions) {
        ScaleDownDone(w, items[0].name, clock);
      }
      SuspendEachDone(w1, items[1..], exclusions, clock);
      assert forall item :: item in items <==> item == items[0] || item in items[1..];
      assert forall item :: item in items[1..] ==> item.name != items[0].name;
    }
  }

  /** The order lists each Deployment of the namespace once. */
  predicate Lists(order: seq<string>, objects: Objects) {
    Distinct(order) && forall name :: name in objects ==> name in order
  }

  /** Without faults a suspension leaves the excluded Deployments as they were and suspends every other one:
      it ends marked or at zero. */
  lemma SuspendAllDone(w: World, order: seq<string>, exclusions: seq<Exclusion>, clock: Clock)
    requires w.script == [] && Lists(order, w.objects)
    ensures var objects := SuspendAll(w, order, exclusions, clock).0.objects;
            && objects.Keys == w.objects.Keys
            && forall name :: name in w.objects ==>
                 if Excluded(name, w.objects[name].labels, exclusions) then objects[name] == w.objects[name]
                 else Suspended(w.objects[name], objects[name])
                      && (IsScaledDownByOperator(objects[name]) || AtZero(objects[name]))
  {
    assert w.Seen() == w.objects;
    ItemsCurrent(w.objects, order);
    SuspendEachDone(w, Items(w.objects, order), exclusions, clock);
  }

  /** Two Deployments alike in everything but the time of the scale-down. */
  predicate SameButTime(d: Deployment, d': Deployment) {
    d.(annotations := d.annotations - {SCALED_DOWN_AT}) == d'.(annotations := d'.annotations - {SCALED_DOWN_AT})
  }

  lemma SuspendedAlike(d: Deployment, x: Deployment, y: Deployment)
    requires Suspended(d, x) && Suspended(d, y)
    ensures SameButTime(x, y)
  {
    if !IsScaledDownByOperator(d) && !AtZero(d) {
      assert x.annotations - {SCALED_DOWN_AT} == y.annotations - {SCALED_DOWN_AT};
    }
  }

  /** Step 9 adds nothing to step 10: scaling any non-excluded workloads down before suspending the namespace gives
      what suspending alone gives, up to timestamps. */
  lemma SuspensionSubsumesIdle(w: World, idle: seq<string>, order: seq<string>, exclusions: seq<Exclusion>,
                               clock: Clock, clock': Clock)
    requires w.script == [] && Lists(order, w.objects)
    requires forall name :: name in idle && name in w.objects ==> !Excluded(name, w.objects[name].labels, exclusions)
    ensures var both := SuspendAll(ScaleIdle(w, idle, clock).0, order, exclusions, clock).0.objects;
            var alone := SuspendAll(w, order, exclusions, clock').0.objects;
            both.Keys == alone.Keys && forall name :: name in both ==> SameButTime(both[name], alone[name])
  {
    var w1 := ScaleIdle(w, idle, clock).0;
    ScaleIdleDone(w, idle, clock);
    SuspendAllDone(w1, order, exclusions, clock);
    SuspendAllDone(w, order, exclusions, clock');
    var both := SuspendAll(w1, order, exclusions, clock).0.objects;
    var alone := SuspendAll(w, order, exclusions, clock').0.objects;
    forall name | name in both ensures SameButTime(both[name], alone[name]) {
      var d := w.objects[name];
      assert w1.objects[name].labels == d.labels;
      if !Excluded(name, d.labels, exclusions) {
        if name in idle {
          SuspendedTwice(d, w1.objects[name], both[name]);
        }
        SuspendedAlike(d, both[name], alone[name]);
      }
    }
  }

  // ------------------------------------------------------------------ the affected names of one reconcile

  predicate Settled(objects: Objects, name: string) {
    name in objects && (IsScaledDownByOperator(objects[name]) || AtZero(objects[name]))
  }

  /** A patch that keeps or brings about a settled state. */
  lemma PatchSettles(w: World, name: string, patch: Patch)
    requires Fresh(w.script)
    requires name in w.objects ==> IsScaledDownByOperator(Apply(w.objects[name], patch))
    ensures var (w', reply) := w.Patch(name, patch);
            && Fresh(w'.script) && (reply.Some? ==> Settled(w'.objects, name))
            && forall other :: Settled(w.objects, other) ==> Settled(w'.objects, other)
  {
  }

  lemma ScaleDownSettles(w: World, name: string, clock: Clock)
    requires Fresh(w.script)
    ensures Fresh(ScaleDown(w, name, clock).0.script)
    ensures ScaleDown(w, name, clock).1 ==> Settled(ScaleDown(w, name, clock).0.objects, name)
    ensures forall other :: Settled(w.objects, other) ==> Settled(ScaleDown(w, name, clock).0.objects, other)
  {
    var (w1, got) := w.Get(name);
    if got.Some? && !Settled(w.objects, name) {
      var d := got.value;
      var marked := Annotated(d, clock(|w1.past|));
      ApplyDiff(d, marked);
      PatchSettles(w1, name, Diff(d, marked));
      var (w2, reply) := w1.Patch(name, Diff(d, marked));
      if reply.Some? {
        ApplyDiff(marked, WithReplicas(marked, 0));
        PatchSettles(w2, name, Diff(marked, WithReplicas(marked, 0)));
      }
    }
  }

  lemma {:induction false} ScaleIdleNames(w: World, names: seq<string>, clock: Clock)
    requires Distinct(names)
    ensures var affected := ScaleIdle(w, names, clock).1;
            Distinct(affected) && forall name :: name in affected ==> name in names
    decreases |names|
  {
    if names != [] {
      var (w1, ok) := ScaleDown(w, names[0], clock);
      ScaleIdleNames(w1, names[1..], clock);
      var rest := ScaleIdle(w1, names[1..], clock).1;
      assert names[0] !in rest;
      assert forall i :: 0 <= i < |rest| ==> rest[i] in rest;
    }
  }

  lemma {:induction false} ScaleIdleSettles(w: World, names: seq<string>, clock: Clock)
    requires Fresh(w.script) && Distinct(names)
    ensures var (w', affected) := ScaleIdle(w, names, clock);
            && Fresh(w'.script) && Distinct(affected)
            && (forall name :: name in affected ==> name in names && Settled(w'.objects, name))
            && (forall name :: Settled(w.objects, name) ==> Settled(w'.objects, name))
    decreases |names|
  {
    if names != [] {
      ScaleDownSettles(w, names[0], clock);
      ScaleIdleSettles(ScaleDown(w, names[0], clock).0, names[1..], clock);
    }
  }

  /** The names reported are in the order of the list, */
  lemma {:induction false} SuspendEachOrder(w: World, objects: Objects, order: seq<string>, exclusions: seq<Exclusion>,
                                            clock: Clock)
    ensures Subsequence(SuspendEach(w, Items(objects, order), exclusions, clock).1, order)
    decreases |order|
  {
    if order != [] {
      var rest := Items(objects, order[1..]);
      if order[0] in objects {
        var item := Item(order[0], objects[order[0]]);
        assert ([item] + rest)[1..] == rest;
        if Spared(item, exclusions) {
          SuspendEachOrder(w, objects, order[1..], exclusions, clock);
        } else {
          var w1 := ScaleDown(w, order[0], clock).0;
          SuspendEachOrder(w1, objects, order[1..], exclusions, clock);
          var names := SuspendEach(w1, rest, exclusions, clock).1;
          assert SuspendEach(w, [item] + rest, exclusions, clock).1 == [order[0]] + names;
          assert ([order[0]] + names)[1..] == names;
        }
      } else {
        assert [] + rest == rest;
        SuspendEachOrder(w, objects, order[1..], exclusions, clock);
      }
    }
  }

  /** and those of step 9 in the order of the workloads. */
  lemma {:induction false} ScaleIdleOrder(w: World, names: seq<string>, clock: Clock)
    ensures Subsequence(ScaleIdle(w, names, clock).1, names)
    decreases |names|
  {
    if names != [] {
      var (w1, ok) := ScaleDown(w, names[0], clock);
      ScaleIdleOrder(w1, names[1..], clock);
      var rest := ScaleIdle(w1, names[1..], clock).1;
      assert ([names[0]] + rest)[1..] == rest;
    }
  }

  lemma {:induction false} SuspendEachNames(w: World, items: seq<Item>, exclusions: seq<Exclusion>, clock: Clock)
    requires forall i, j :: 0 <= i < j < |items| ==> items[i].name != items[j].name
    ensures var names := SuspendEach(w, items, exclusions, clock).1;
            && Distinct(names)
            && forall name ::
                 name in names
                 <==> exists i :: 0 <= i < |items| && items[i].name == name && !Spared(items[i], exclusions)
    decreases |items|
  {
    if items != [] {
      var w1 := if Spared(items[0], exclusions) then w else ScaleDown(w, items[0].name, clock).0;
      SuspendEachNames(w1, items[1..], exclusions, clock);
      var names, rest := SuspendEach(w, items, exclusions, clock).1, SuspendEach(w1, items[1..], exclusions, clock).1;
      assert forall i :: 0 <= i < |items[1..]| ==> items[1..][i].name != items[0].name;
      assert items[0].name !in rest;
      assert forall k :: 0 <= k < |rest| ==> rest[k] in rest;
      forall name
        ensures name in names
           <==> exists i :: 0 <= i < |items| && items[i].name == name && !Spared(items[i], exclusions)
      {
        if name in rest {
          var i :| 0 <= i < |items[1..]| && items[1..][i].name == name && !Spared(items[1..][i], exclusions);
          assert items[i + 1].name == name && !Spared(items[i + 1], exclusions);
        }
        if i :| 0 <= i < |items| && items[i].name == name && !Spared(items[i], exclusions) {
          if i > 0 {
            assert items[1..][i - 1].name == name && !Spared(items[1..][i - 1], exclusions);
          }
        }
      }
    }
  }

  lemma DistinctJoin(a: seq<string>, b: seq<string>)
    requires Distinct(a) && Distinct(b)
    ensures Distinct(a + b) <==> forall name :: name in a ==> name !in b
  {
    if Distinct(a + b) {
      forall i, j | 0 <= i < |a| && 0 <= j < |b| ensures a[i] != b[j] {
        assert (a + b)[i] == a[i] && (a + b)[|a| + j] == b[j];
      }
    } else {
      var i, j :| 0 <= i < j < |a + b| && (a + b)[i] == (a + b)[j];
      assert i < |a| <= j;
      assert a[i] in a && b[j - |a|] in b;
    }
  }

  /** The names of step 9 and step 10 together hold no duplicate exactly if the list of step 10 shows each workload
      that step 9 scaled down as one to be spared. A list that lags behind step 9 does not. */
  lemma AffectedNamesExact(w: World, idle: seq<string>, order: seq<string>, exclusions: seq<Exclusion>, clock: Clock)
    requires Distinct(idle) && Distinct(order)
    ensures var (w1, affected) := ScaleIdle(w, idle, clock);
            var items := w1.List(order).1;
            var suspended := SuspendAll(w1, order, exclusions, clock).1;
            && (suspended.Some? <==> items.Some?)
            && (items.Some? ==>
                  (Distinct(affected + suspended.value)
                   <==> forall i :: 0 <= i < |items.value| && items.value[i].name in affected ==>
                          Spared(items.value[i], exclusions)))
  {
    ScaleIdleNames(w, idle, clock);
    var (w1, affected) := ScaleIdle(w, idle, clock);
    var (w2, items) := w1.List(order);
    if items.Some? {
      ItemsCurrent(w1.Seen(), order);
      SuspendEachNames(w2, items.value, exclusions, clock);
      DistinctJoin(affected, SuspendEach(w2, items.value, exclusions, clock).1);
    }
  }

  /** With current reads one reconcile reports no workload twice, whatever fails. */
  lemma AffectedNamesDistinct(w: World, idle: seq<string>, order: seq<string>, exclusions: seq<Exclusion>, clock: Clock)
    requires Fresh(w.script) && Distinct(idle) && Distinct(order)
    ensures var (w1, affected) := ScaleIdle(w, idle, clock);
            var suspended := SuspendAll(w1, order, exclusions, clock).1;
            suspended.Some? ==> Distinct(affected + suspended.value)
  {
    ScaleIdleSettles(w, idle, clock);
    AffectedNamesExact(w, idle, order, exclusions, clock);
    ItemsFrom(ScaleIdle(w, idle, clock).0.objects, order);
  }

  const THREE := Deployment(map[], Some(3), map[])
  const BUSY := World([], map["d" := THREE], [Done, Done, Done, Lag(2)])

  lemma PatchAlone(past: seq<Objects>, d: Deployment, edited: Deployment, rest: seq<Outcome>)
    requires d.labels == edited.labels
    ensures World(past, map["d" := d], [Done] + rest).Patch("d", Diff(d, edited))
         == (World(past + [map["d" := d]], map["d" := edited], rest), Some(edited))
  {
    ApplyDiff(d, edited);
    assert ([Done] + rest)[1..] == rest;
    assert map["d" := d]["d" := edited] == map["d" := edited];
  }

  lemma DownAlone(past: seq<Objects>, d: Deployment, clock: Clock, rest: seq<Outcome>)
    requires !IsScaledDownByOperator(d) && !AtZero(d)
    ensures var marked := Annotated(d, clock(|past|));
            ScaleDownFrom(World(past, map["d" := d], [Done] + ([Done] + rest)), "d", d, clock)
              == (World(past + [map["d" := d]] + [map["d" := marked]],
                        map["d" := WithReplicas(marked, 0)], rest), true)
  {
    var marked := Annotated(d, clock(|past|));
    PatchAlone(past, d, marked, [Done] + rest);
    PatchAlone(past + [map["d" := d]], marked, WithReplicas(marked, 0), rest);
  }

  lemma BusyDown(clock: Clock)
    ensures var marked := Annotated(THREE, clock(0));
            ScaleDown(BUSY, "d", clock)
              == (World([] + [map["d" := THREE]] + [map["d" := marked]],
                        map["d" := WithReplicas(marked, 0)], [Lag(2)]), true)
  {
    var script := [Done] + ([Done] + [Lag(2)]);
    assert BUSY.script[1..] == script && BUSY.Revisions()[0] == map["d" := THREE];
    assert BUSY.Get("d") == (World([], map["d" := THREE], script), Some(THREE));
    DownAlone([], THREE, clock, [Lag(2)]);
  }

  lemma ScaleOne(w: World, name: string, clock: Clock)
    ensures ScaleIdle(w, [name], clock).0 == ScaleDown(w, name, clock).0
    ensures ScaleDown(w, name, clock).1 ==> ScaleIdle(w, [name], clock).1 == [name]
  {
    assert [name][1..] == [];
  }

  lemma SuspendOne(w: World, clock: Clock)
    requires !w.Head().Refused? && !w.Head().ReplyLost? && w.Seen() == map["d" := THREE]
    ensures SuspendAll(w, ["d"], [], clock).1 == Some(["d"])
  {
    var items := [Item("d", THREE)];
    assert ["d"][1..] == [] && Items(w.Seen(), ["d"]) == items;
    assert items[1..] == [] && !Spared(items[0], []);
    var w2 := ScaleDown(w.Called(), "d", clock).0;
    assert w.List(["d"]) == (w.Called(), Some(items)) && !Excluded("d", THREE.labels, []);
    assert SuspendEach(w.Called(), items, [], clock).1 == ["d"] + SuspendEach(w2, items[1..], [], clock).1 == ["d"];
  }

  /** From a clean Deployment, with no call failing: step 9 scales it down, the list of step 10 still shows it as it
      was, and it is reported twice. */
  lemma StaleListReportsTwice(clock: Clock)
    ensures Honest(BUSY, map["d" := THREE])
    ensures var (w1, affected) := ScaleIdle(BUSY, ["d"], clock);
            affected == ["d"] && SuspendAll(w1, ["d"], [], clock).1 == Some(["d"])
  {
    assert THREE.annotations - COST_KEYS == THREE.annotations && Free(THREE, THREE);
    BusyDown(clock);
    var w1 := ScaleDown(BUSY, "d", clock).0;
    ScaleOne(BUSY, "d", clock);
    assert w1.Revisions()[0] == map["d" := THREE] && w1.Seen() == map["d" := THREE];
    SuspendOne(w1, clock);
  }
}
