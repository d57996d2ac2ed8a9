/** The Deployment API as a state machine, and what each operation of the operator does to it, call by call. */
module ActionSpec {
  import opened Options
  import opened Decimal
  import opened Deployments
  import opened Exclusions

  type Objects = map<string, Deployment>

  /** How one API call goes. A read that lags returns an earlier revision (an informer cache); a call may be
      refused; a write may take effect although its reply is lost. A crash is every later call being refused. */
  datatype Outcome = Done | Lag(revisions: nat) | Refused | ReplyLost

  datatype Item = Item(name: string, deployment: Deployment)

  /** All persisted revisions, oldest first, and the outcomes of the calls to come (Done once they run out). */
  datatype World = World(past: seq<Objects>, objects: Objects, script: seq<Outcome>) {
    function Revisions(): seq<Objects> {
      past + [objects]
    }

    function Head(): Outcome {
      if script == [] then Done else script[0]
    }

    function Called(): (next: World)
      ensures next.Revisions() == Revisions()
    {
      if script == [] then this else this.(script := script[1..])
    }

    /** The revision the next read sees. */
    function Seen(): Objects {
      var back := if Head().Lag? then Head().revisions else 0;
      var revisions := Revisions();
      if back <= |past| then revisions[|past| - back] else revisions[0]
    }

    function Get(name: string): (World, Option<Deployment>) {
      (Called(),
       if Head().Refused? || Head().ReplyLost? || name !in Seen() then None else Some(Seen()[name]))
    }

    function List(order: seq<string>): (World, Option<seq<Item>>) {
      (Called(),
       if Head().Refused? || Head().ReplyLost? then None else Some(Items(Seen(), order)))
    }

    /** The reply carries the object as stored. */
    function Patch(name: string, patch: Patch): (World, Option<Deployment>) {
      if Head().Refused? || name !in objects then (Called(), None)
      else
        var stored := Apply(objects[name], patch);
        (Called().(past := Revisions(), objects := objects[name := stored]),
         if Head().ReplyLost? then None else Some(stored))
    }
  }

  /** The listed objects, in the order the server lists them. */
  function Items(objects: Objects, order: seq<string>): seq<Item> {
    if order == [] then []
    else (if order[0] in objects then [Item(order[0], objects[order[0]])] else []) + Items(objects, order[1..])
  }

  /** `clock(k)` is the formatted time when `k` revisions precede the current one. */
  type Clock = nat -> string

  function ScaleDown(w: World, name: string, clock: Clock): (World, bool) {
    var (w1, got) := w.Get(name);
    if got.None? then (w1, false) else ScaleDownFrom(w1, name, got.value, clock)
  }

  /** `ScaleDown` once `d` has been read. */
  function ScaleDownFrom(w: World, name: string, d: Deployment, clock: Clock): (World, bool) {
    if IsScaledDownByOperator(d) || AtZero(d) then (w, true)
    else
      var (w1, reply) := w.Patch(name, Diff(d, Annotated(d, clock(|w.past|))));
      if reply.None? then (w1, false)
      else
        var (w2, reply2) := w1.Patch(name, Diff(reply.value, WithReplicas(reply.value, 0)));
        (w2, reply2.Some?)
  }

  function Restore(w: World, name: string): (World, bool) {
    var (w1, got) := w.Get(name);
    if got.None? then (w1, false) else RestoreFrom(w1, name, got.value)
  }

  /** `Restore` once `d` has been read. */
  function RestoreFrom(w: World, name: string, d: Deployment): (World, bool) {
    if !IsScaledDownByOperator(d) then (w, true)
    else if Record(d).None? then (w, false)
    else
      var (w1, reply) := w.Patch(name, Diff(d, WithReplicas(d, Record(d).value)));
      if reply.None? then (w1, false)
      else
        var (w2, reply2) := w1.Patch(name, Diff(reply.value, Stripped(reply.value)));
        (w2, reply2.Some?)
  }

  function SuspendAll(w: World, order: seq<string>, exclusions: seq<Exclusion>, clock: Clock)
    : (World, Option<seq<string>>)
  {
    var (w1, items) := w.List(order);
    if items.None? then (w1, None)
    else
      var (w2, names) := SuspendEach(w1, items.value, exclusions, clock);
      (w2, Some(names))
  }

  predicate Spared(item: Item, exclusions: seq<Exclusion>) {
    || Excluded(item.name, item.deployment.labels, exclusions)
    || IsScaledDownByOperator(item.deployment)
    || AtZero(item.deployment)
  }

  /** The sweep: a failed `ScaleDown` does not stop it, and its name is reported all the same. */
  function SuspendEach(w: World, items: seq<Item>, exclusions: seq<Exclusion>, clock: Clock): (World, seq<string>)
    decreases |items|
  {
    if items == [] then (w, [])
    else if Spared(items[0], exclusions) then SuspendEach(w, items[1..], exclusions, clock)
    else
      var (w1, _) := ScaleDown(w, items[0].name, clock);
      var (w2, names) := SuspendEach(w1, items[1..], exclusions, clock);
      (w2, [items[0].name] + names)
  }

  /** Restores every marked Deployment, stopping at the first error. */
  function Cleanup(w: World, order: seq<string>): (World, bool) {
    var (w1, items) := w.List(order);
    if items.None? then (w1, false) else RestoreEach(w1, items.value)
  }

  function RestoreEach(w: World, items: seq<Item>): (World, bool)
    decreases |items|
  {
    if items == [] then (w, true)
    else if !IsScaledDownByOperator(items[0].deployment) then RestoreEach(w, items[1..])
    else
      var (w1, ok) := Restore(w, items[0].name);
      if ok then RestoreEach(w1, items[1..]) else (w1, false)
  }

  /** The `restore` command: one patch per Deployment, skipping those it cannot handle. */
  function CliRestore(w: World, order: seq<string>): (World, Option<nat>) {
    var (w1, items) := w.List(order);
    if items.None? then (w1, None)
    else
      var (w2, restored) := CliRestoreEach(w1, items.value);
      (w2, Some(restored))
  }

  /** The edited copy of the command's single patch. */
  function Released(d: Deployment, n: Int32): Deployment {
    Stripped(WithReplicas(d, n))
  }

  /** One turn of the command's loop, and whether it counts as restored. */
  function CliRestoreOne(w: World, name: string, d: Deployment): (World, bool) {
    if !IsScaledDownByOperator(d) || Record(d).None? then (w, false)
    else
      var (w1, reply) := w.Patch(name, Diff(d, Released(d, Record(d).value)));
      (w1, reply.Some?)
  }

  function CliRestoreEach(w: World, items: seq<Item>): (World, nat)
    decreases |items|
  {
    if items == [] then (w, 0)
    else
      var (w1, restored) := CliRestoreOne(w, items[0].name, items[0].deployment);
      var (w2, more) := CliRestoreEach(w1, items[1..]);
      (w2, if restored then more + 1 else more)
  }

  /** Step 9 of a reconcile: scales down the idle workloads, reporting those that succeeded. */
  function ScaleIdle(w: World, names: seq<string>, clock: Clock): (World, seq<string>)
    decreases |names|
  {
    if names == [] then (w, [])
    else
      var (w1, ok) := ScaleDown(w, names[0], clock);
      var (w2, affected) := ScaleIdle(w1, names[1..], clock);
      (w2, if ok then [names[0]] + affected else affected)
  }
}
