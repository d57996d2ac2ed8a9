/** Nothing the operator or the command line does to a Deployment loses its replica count, whatever call fails
    and wherever a process dies. A run is a sequence of operations, each with its own script of call outcomes. */
module Recovery {
  import opened Options
  import opened Decimal
  import opened Deployments
  import opened Exclusions
  import opened ActionSpec

  datatype Op =
    | ScaleDownOp(name: string, clock: Clock)
    | ScaleIdleOp(names: seq<string>, clock: Clock)
    | SuspendOp(order: seq<string>, exclusions: seq<Exclusion>, clock: Clock)
    | RestoreOp(name: string)
    | CleanupOp(order: seq<string>)
    | CliOp(order: seq<string>)

  datatype Step = Step(op: Op, script: seq<Outcome>)

  function Perform(w: World, op: Op): World {
    match op
    case ScaleDownOp(name, clock) => ScaleDown(w, name, clock).0
    case ScaleIdleOp(names, clock) => ScaleIdle(w, names, clock).0
    case SuspendOp(order, exclusions, clock) => SuspendAll(w, order, exclusions, clock).0
    case RestoreOp(name) => Restore(w, name).0
    case CleanupOp(order) => Cleanup(w, order).0
    case CliOp(order) => CliRestore(w, order).0
  }

  /** Only what is persisted survives from one operation to the next. */
  function Run(w: World, steps: seq<Step>): World
    decreases |steps|
  {
    if steps == [] then w
    else Run(Perform(w.(script := steps[0].script), steps[0].op), steps[1..])
  }

  predicate Fresh(script: seq<Outcome>) {
    forall i :: 0 <= i < |script| ==> !script[i].Lag?
  }

  predicate Distinct(names: seq<string>) {
    forall i, j :: 0 <= i < j < |names| ==> names[i] != names[j]
  }

  predicate Subsequence<T(==)>(a: seq<T>, b: seq<T>) {
    if a == [] then true
    else if b == [] then false
    else (a[0] == b[0] && Subsequence(a[1..], b[1..])) || Subsequence(a, b[1..])
  }

  // ------------------------------------------------------------------ every revision keeps every count

  type Counts = map<string, Option<Int32>>

  function CountsOf(objects: Objects): Counts {
    map name | name in objects :: Effective(objects[name])
  }

  predicate Conserved(w: World, counts: Counts) {
    forall i :: 0 <= i < |w.Revisions()| ==> CountsOf(w.Revisions()[i]) == counts
  }

  lemma PatchConserves(w: World, name: string, patch: Patch, counts: Counts)
    requires Conserved(w, counts) && Fresh(w.script)
    requires name in w.objects ==> Effective(Apply(w.objects[name], patch)) == Effective(w.objects[name])
    ensures Conserved(w.Patch(name, patch).0, counts) && Fresh(w.Patch(name, patch).0.script)
  {
    var w' := w.Patch(name, patch).0;
    assert CountsOf(w.Revisions()[|w.past|]) == counts;
    assert CountsOf(w'.objects) == CountsOf(w.objects);
    if w'.past != w.past {
      assert forall i :: 0 <= i < |w.Revisions()| ==> w'.Revisions()[i] == w.Revisions()[i];
    }
  }

  /** A patch computed from the current object either has no effect or stores exactly the edited copy. */
  lemma PatchTo(w: World, name: string, edited: Deployment)
    requires Fresh(w.script) && name in w.objects && edited.labels == w.objects[name].labels
    ensures var (w', reply) := w.Patch(name, Diff(w.objects[name], edited));
            && Fresh(w'.script)
            && (w'.Revisions() == w.Revisions()
                || (w'.past == w.Revisions() && w'.objects == w.objects[name := edited]))
            && (reply.Some? ==> reply.value == edited && w'.objects == w.objects[name := edited])
  {
    ApplyDiff(w.objects[name], edited);
  }

  lemma ScaleDownConserves(w: World, name: string, clock: Clock, counts: Counts)
    requires Conserved(w, counts) && Fresh(w.script)
    ensures Conserved(ScaleDown(w, name, clock).0, counts) && Fresh(ScaleDown(w, name, clock).0.script)
  {
    var (w1, got) := w.Get(name);
    if got.Some? && !IsScaledDownByOperator(got.value) && !AtZero(got.value) {
      var d := got.value;
      var marked := Annotated(d, clock(|w1.past|));
      ApplyDiff(d, marked);
      ParseFormat(Wanted(d));
      PatchConserves(w1, name, Diff(d, marked), counts);
      var (w2, reply) := w1.Patch(name, Diff(d, marked));
      if reply.Some? {
        ApplyDiff(reply.value, WithReplicas(reply.value, 0));
        PatchConserves(w2, name, Diff(reply.value, WithReplicas(reply.value, 0)), counts);
      }
    }
  }

  lemma RestoreConserves(w: World, name: string, counts: Counts)
    requires Conserved(w, counts) && Fresh(w.script)
    ensures Conserved(Restore(w, name).0, counts) && Fresh(Restore(w, name).0.script)
  {
    var (w1, got) := w.Get(name);
    if got.Some? && IsScaledDownByOperator(got.value) && Record(got.value).Some? {
      var d := got.value;
      var scaled := WithReplicas(d, Record(d).value);
      ApplyDiff(d, scaled);
      PatchConserves(w1, name, Diff(d, scaled), counts);
      var (w2, reply) := w1.Patch(name, Diff(d, scaled));
      if reply.Some? {
        ApplyDiff(reply.value, Stripped(reply.value));
        PatchConserves(w2, name, Diff(reply.value, Stripped(reply.value)), counts);
      }
    }
  }

  lemma {:induction false} SuspendEachConserves(w: World, items: seq<Item>, exclusions: seq<Exclusion>, clock: Clock,
                                                counts: Counts)
    requires Conserved(w, counts) && Fresh(w.script)
    ensures Conserved(SuspendEach(w, items, exclusions, clock).0, counts)
    decreases |items|
  {
    if items == [] {
    } else if Spared(items[0], exclusions) {
      SuspendEachConserves(w, items[1..], exclusions, clock, counts);
    } else {
      ScaleDownConserves(w, items[0].name, clock, counts);
      SuspendEachConserves(ScaleDown(w, items[0].name, clock).0, items[1..], exclusions, clock, counts);
    }
  }

  lemma {:induction false} ScaleIdleConserves(w: World, names: seq<string>, clock: Clock, counts: Counts)
    requires Conserved(w, counts) && Fresh(w.script)
    ensures Conserved(ScaleIdle(w, names, clock).0, counts) && Fresh(ScaleIdle(w, names, clock).0.script)
    decreases |names|
  {
    if names != [] {
      ScaleDownConserves(w, names[0], clock, counts);
      ScaleIdleConserves(ScaleDown(w, names[0], clock).0, names[1..], clock, counts);
    }
  }

  lemma {:induction false} RestoreEachConserves(w: World, items: seq<Item>, counts: Counts)
    requires Conserved(w, counts) && Fresh(w.script)
    ensures Conserved(RestoreEach(w, items).0, counts) && Fresh(RestoreEach(w, items).0.script)
    decreases |items|
  {
    if items == [] {
    } else if !IsScaledDownByOperator(items[0].deployment) {
      RestoreEachConserves(w, items[1..], counts);
    } else {
      RestoreConserves(w, items[0].name, counts);
      RestoreEachConserves(Restore(w, items[0].name).0, items[1..], counts);
    }
  }

  /** The listed copies are what the server holds, and no name is listed twice. */
  predicate Current(items: seq<Item>, objects: Objects) {
    && (forall i :: 0 <= i < |items| ==> items[i].name in objects && objects[items[i].name] == items[i].deployment)
    && (forall i, j :: 0 <= i < j < |items| ==> items[i].name != items[j].name)
  }

  lemma {:induction false} ItemsCurrent(objects: Objects, order: seq<string>)
    requires Distinct(order)
    ensures Current(Items(objects, order), objects)
    ensures forall i :: 0 <= i < |Items(objects, order)| ==> Items(objects, order)[i].name in order
    ensures forall name :: name in order && name in objects ==> Item(name, objects[name]) in Items(objects, order)
  {
    if order != [] {
      ItemsCurrent(objects, order[1..]);
      var rest := Items(objects, order[1..]);
      assert forall name :: name in order <==> name == order[0] || name in order[1..];
      if order[0] in objects {
        assert Items(objects, order) == [Item(order[0], objects[order[0]])] + rest;
      }
    }
  }

  lemma {:induction false} CliRestoreEachConserves(w: World, items: seq<Item>, counts: Counts)
    requires Conserved(w, counts) && Fresh(w.script) && Current(items, w.objects)
    ensures Conserved(CliRestoreEach(w, items).0, counts)
    decreases |items|
  {
    if items != [] {
      var d := items[0].deployment;
      if IsScaledDownByOperator(d) && Record(d).Some? {
        ApplyDiff(d, Released(d, Record(d).value));
        PatchConserves(w, items[0].name, Diff(d, Released(d, Record(d).value)), counts);
      }
      CliRestoreEachConserves(CliRestoreOne(w, items[0].name, d).0, items[1..], counts);
    }
  }

  /** An operation that starts with a list is given the server's order, without repetitions. */
  predicate WellFormed(op: Op) {
    op.CliOp? ==> Distinct(op.order)
  }

  lemma SuspendAllConserves(w: World, order: seq<string>, exclusions: seq<Exclusion>, clock: Clock, counts: Counts)
    requires Conserved(w, counts) && Fresh(w.script)
    ensures Conserved(SuspendAll(w, order, exclusions, clock).0, counts)
  {
    var (w1, items) := w.List(order);
    if items.Some? {
      SuspendEachConserves(w1, items.value, exclusions, clock, counts);
    }
  }

  lemma CleanupConserves(w: World, order: seq<string>, counts: Counts)
    requires Conserved(w, counts) && Fresh(w.script)
    ensures Conserved(Cleanup(w, order).0, counts)
  {
    var (w1, items) := w.List(order);
    if items.Some? {
      RestoreEachConserves(w1, items.value, counts);
    }
  }

  lemma CliRestoreConserves(w: World, order: seq<string>, counts: Counts)
    requires Conserved(w, counts) && Fresh(w.script) && Distinct(order)
    ensures Conserved(CliRestore(w, order).0, counts)
  {
    var (w1, items) := w.List(order);
    if items.Some? {
      ItemsCurrent(w.objects, order);
      CliRestoreEachConserves(w1, items.value, counts);
    }
  }

  lemma PerformConserves(w: World, op: Op, counts: Counts)
    requires Conserved(w, counts) && Fresh(w.script) && WellFormed(op)
    ensures Conserved(Perform(w, op), counts)
  {
    match op
    case ScaleDownOp(name, clock) => ScaleDownConserves(w, name, clock, counts);
    case ScaleIdleOp(names, clock) => ScaleIdleConserves(w, names, clock, counts);
    case SuspendOp(order, exclusions, clock) => SuspendAllConserves(w, order, exclusions, clock, counts);
    case RestoreOp(name) => RestoreConserves(w, name, counts);
    case CleanupOp(order) => CleanupConserves(w, order, counts);
    case CliOp(order) => CliRestoreConserves(w, order, counts);
  }

  /** From any cluster whatever, over any run of any operations whose reads are up to date, with any calls refused,
      any replies lost and any process dying anywhere: every persisted revision gives every Deployment the same
      effective count. */
  lemma {:induction false} RunConserves(w: World, steps: seq<Step>, counts: Counts)
    requires Conserved(w, counts)
    requires forall i :: 0 <= i < |steps| ==> Fresh(steps[i].script) && WellFormed(steps[i].op)
    ensures Conserved(Run(w, steps), counts)
    decreases |steps|
  {
    if steps != [] {
      var w0 := w.(script := steps[0].script);
      assert w0.Revisions() == w.Revisions();
      PerformConserves(w0, steps[0].op, counts);
      RunConserves(Perform(w0, steps[0].op), steps[1..], counts);
    }
  }
}
