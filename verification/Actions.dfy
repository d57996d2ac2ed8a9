/** The operations on Deployments as the operator runs them, each proved to be the transition
    of the same name in `ActionSpec`. */
module Actions {
  import opened Options
  import opened Decimal
  import opened Deployments
  import opened Exclusions
  import opened ActionSpec
  import Spec = ActionSpec

  /** The API server's Deployments of one namespace, as reached through the client. */
  class Cluster {
    var past: seq<Objects>
    var objects: Objects
    var script: seq<Outcome>

    constructor (objects: Objects, script: seq<Outcome>)
      ensures World() == Spec.World.World([], objects, script)
    {
      this.past, this.objects, this.script := [], objects, script;
    }

    function World(): World
      reads this
    {
      Spec.World.World(past, objects, script)
    }

    method NextOutcome() returns (outcome: Outcome)
      modifies this
      ensures outcome == old(World().Head()) && World() == old(World().Called())
    {
      outcome := Done;
      if script != [] {
        outcome := script[0];
        script := script[1..];
      }
    }

    method Get(name: string) returns (got: Option<Deployment>)
      modifies this
      ensures World() == old(World().Get(name).0) && got == old(World().Get(name).1)
    {
      var seen := World().Seen();
      var outcome := NextOutcome();
      if outcome.Refused? || outcome.ReplyLost? || name !in seen {
        return None;
      }
      return Some(seen[name]);
    }

    method List(order: seq<string>) returns (items: Option<seq<Item>>)
      modifies this
      ensures World() == old(World().List(order).0) && items == old(World().List(order).1)
    {
      var seen := World().Seen();
      var outcome := NextOutcome();
      if outcome.Refused? || outcome.ReplyLost? {
        return None;
      }
      return Some(Items(seen, order));
    }

    method Patch(name: string, patch: Patch) returns (reply: Option<Deployment>)
      modifies this
      ensures World() == old(World().Patch(name, patch).0) && reply == old(World().Patch(name, patch).1)
    {
      var outcome := NextOutcome();
      if outcome.Refused? || name !in objects {
        return None;
      }
      past := past + [objects];
      objects := objects[name := Apply(objects[name], patch)];
      return if outcome.ReplyLost? then None else Some(objects[name]);
    }

    method ScaleDown(name: string, clock: Clock) returns (ok: bool)
      modifies this
      ensures World() == old(Spec.ScaleDown(World(), name, clock).0)
      ensures ok == old(Spec.ScaleDown(World(), name, clock).1)
    {
      var got := Get(name);
      if got.None? {
        return false;
      }
      var deployment := got.value;
      if IsScaledDownByOperator(deployment) {
        return true;
      }
      if deployment.replicas.Some? && deployment.replicas.value == 0 {
        return true;
      }
      var originalReplicas: Int32 := 1;
      if deployment.replicas.Some? {
        originalReplicas := deployment.replicas.value;
      }

      var base := deployment;
      var annotations := deployment.annotations;
      annotations := annotations[SCALED_DOWN_BY := OPERATOR];
      annotations := annotations[SCALED_DOWN_AT := clock(|past|)];
      annotations := annotations[ORIGINAL_REPLICAS := FormatInt(originalReplicas)];
      annotations := annotations[REASON := IDLE_REASON];
      deployment := deployment.(annotations := annotations);
      var reply := Patch(name, Diff(base, deployment));
      if reply.None? {
        return false;
      }

      base := reply.value;
      deployment := base.(replicas := Some(0));
      reply := Patch(name, Diff(base, deployment));
      return reply.Some?;
    }

    method Restore(name: string) returns (ok: bool)
      modifies this
      ensures World() == old(Spec.Restore(World(), name).0)
      ensures ok == old(Spec.Restore(World(), name).1)
    {
      var got := Get(name);
      if got.None? {
        return false;
      }
      var deployment := got.value;
      if !IsScaledDownByOperator(deployment) {
        return true;
      }
      if ORIGINAL_REPLICAS !in deployment.annotations {
        return false;
      }
      var original := ParseInt32(deployment.annotations[ORIGINAL_REPLICAS]);
      if original.None? {
        return false;
      }

      var base := deployment;
      deployment := deployment.(replicas := Some(original.value));
      var reply := Patch(name, Diff(base, deployment));
      if reply.None? {
        return false;
      }

      base := reply.value;
      deployment := base.(annotations := base.annotations - COST_KEYS);
      reply := Patch(name, Diff(base, deployment));
      return reply.Some?;
    }

    method SuspendAll(order: seq<string>, exclusions: seq<Exclusion>, clock: Clock)
        returns (suspended: Option<seq<string>>)
      modifies this
      ensures World() == old(Spec.SuspendAll(World(), order, exclusions, clock).0)
      ensures suspended == old(Spec.SuspendAll(World(), order, exclusions, clock).1)
    {
      var items := List(order);
      if items.None? {
        return None;
      }
      ghost var swept := SuspendEach(World(), items.value, exclusions, clock);
      var names: seq<string> := [];
      assert items.value[0..] == items.value && names + swept.1 == swept.1;
      for i := 0 to |items.value|
        invariant var rest := SuspendEach(World(), items.value[i..], exclusions, clock);
                  swept == (rest.0, names + rest.1)
      {
        var d := items.value[i];
        ghost var before := World();
        assert items.value[i..][1..] == items.value[i + 1..];
        var named := IsExcluded(d.name, exclusions);
        if named {
          continue;
        }
        var labelled := IsLabelExcluded(d.deployment, exclusions);
        if labelled {
          continue;
        }
        if IsScaledDownByOperator(d.deployment) {
          continue;
        }
        if d.deployment.replicas.Some? && d.deployment.replicas.value == 0 {
          continue;
        }
        var _ := ScaleDown(d.name, clock);
        assert forall tail :: names + ([d.name] + tail) == names + [d.name] + tail;
        names := names + [d.name];
      }
      assert names + [] == names;
      return Some(names);
    }

    /** The controller's `cleanup`. */
    method Cleanup(order: seq<string>) returns (ok: bool)
      modifies this
      ensures World() == old(Spec.Cleanup(World(), order).0)
      ensures ok == old(Spec.Cleanup(World(), order).1)
    {
      var items := List(order);
      if items.None? {
        return false;
      }
      ghost var swept := RestoreEach(World(), items.value);
      for i := 0 to |items.value|
        invariant swept == RestoreEach(World(), items.value[i..])
      {
        var d := items.value[i];
        assert items.value[i..][1..] == items.value[i + 1..];
        if !IsScaledDownByOperator(d.deployment) {
          continue;
        }
        var restored := Restore(d.name);
        if !restored {
          return false;
        }
      }
      return true;
    }

    method CliRestoreOne(name: string, deployment: Deployment) returns (restored: bool)
      modifies this
      ensures World() == old(Spec.CliRestoreOne(World(), name, deployment).0)
      ensures restored == old(Spec.CliRestoreOne(World(), name, deployment).1)
    {
      var d := deployment;
      if !IsScaledDownByOperator(d) {
        return false;
      }
      if ORIGINAL_REPLICAS !in d.annotations {
        return false;
      }
      var original := ParseInt32(d.annotations[ORIGINAL_REPLICAS]);
      if original.None? {
        return false;
      }
      var base := d;
      d := d.(replicas := Some(original.value));
      d := d.(annotations := d.annotations - COST_KEYS);
      var reply := Patch(name, Diff(base, d));
      return reply.Some?;
    }

    /** The command line's `restore`; None when the list call fails. */
    method CliRestore(order: seq<string>) returns (total: Option<nat>)
      modifies this
      ensures World() == old(Spec.CliRestore(World(), order).0)
      ensures total == old(Spec.CliRestore(World(), order).1)
    {
      var items := List(order);
      if items.None? {
        return None;
      }
      ghost var swept := CliRestoreEach(World(), items.value);
      var count := 0;
      for i := 0 to |items.value|
        invariant swept.0 == CliRestoreEach(World(), items.value[i..]).0
        invariant swept.1 == count + CliRestoreEach(World(), items.value[i..]).1
      {
        ghost var w, tail := World(), items.value[i..];
        assert tail[1..] == items.value[i + 1..];
        assert CliRestoreEach(w, tail).0
            == CliRestoreEach(Spec.CliRestoreOne(w, tail[0].name, tail[0].deployment).0, tail[1..]).0;
        var restored := CliRestoreOne(items.value[i].name, items.value[i].deployment);
        if restored {
          count := count + 1;
        }
      }
      return Some(count);
    }

    /** Step 9 of a reconcile. */
    method ScaleIdle(names: seq<string>, clock: Clock) returns (affected: seq<string>)
      modifies this
      ensures World() == old(Spec.ScaleIdle(World(), names, clock).0)
      ensures affected == old(Spec.ScaleIdle(World(), names, clock).1)
    {
      ghost var swept := Spec.ScaleIdle(World(), names, clock);
      affected := [];
      assert names[0..] == names && affected + swept.1 == swept.1;
      for i := 0 to |names|
        invariant var rest := Spec.ScaleIdle(World(), names[i..], clock);
                  swept == (rest.0, affected + rest.1)
      {
        assert names[i..][1..] == names[i + 1..];
        var ok := ScaleDown(names[i], clock);
        if !ok {
          continue;
        }
        assert forall tail :: affected + ([names[i]] + tail) == affected + [names[i]] + tail;
        affected := affected + [names[i]];
      }
    }
  }
}
