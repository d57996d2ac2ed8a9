/** The way back: what a completed cleanup leaves, that retrying it ends, and that the command line gets
    to the same place. */
module Lifecycle {
  import opened Options
  import opened Deployments
  import opened ActionSpec
  import opened Recovery
  import opened Provenance
  import opened Suspension

  /** A Deployment given back. */
  function Rescued(d: Deployment): Deployment {
    if IsScaledDownByOperator(d) && Record(d).Some? then Released(d, Record(d).value) else d
  }

  /** What can be given back has been. */
  predicate RescuedIn(objects: Objects, objects': Objects, names: seq<string>) {
    && objects'.Keys == objects.Keys
    && forall name :: name in objects ==>
        objects'[name] == if name in names then Rescued(objects[name]) else objects[name]
  }

  lemma RestoreDone(w: World, name: string)
    requires Fresh(w.script)
    ensures var (w', ok) := Restore(w, name);
            && Fresh(w'.script)
            && (ok ==> name in w.objects && w'.objects == w.objects[name := Rescued(w.objects[name])])
            && (ok && IsScaledDownByOperator(w.objects[name]) ==> Record(w.objects[name]).Some?)
  {
    var (w1, got) := w.Get(name);
    if got.Some? && IsScaledDownByOperator(got.value) && Record(got.value).Some? {
      var d := got.value;
      var scaled := WithReplicas(d, Record(d).value);
      PatchTo(w1, name, scaled);
      var (w2, reply) := w1.Patch(name, Diff(d, scaled));
      if reply.Some? {
        PatchTo(w2, name, Stripped(scaled));
      }
    }
  }

  /** Every Deployment listed as it is in `objects` has been given back, and nothing else has changed. */
  predicate Returned(items: seq<Item>, objects: Objects, objects': Objects) {
    && objects'.Keys == objects.Keys
    && forall name :: name in objects ==>
         objects'[name] == if Item(name, objects[name]) in items then Rescued(objects[name]) else objects[name]
  }

  predicate RecordsReadable(items: seq<Item>) {
    forall i :: 0 <= i < |items| && IsScaledDownByOperator(items[i].deployment) ==> Record(items[i].deployment).Some?
  }

  lemma ReturnedNext(items: seq<Item>, a: Objects, b: Objects, c: Objects)
    requires items != [] && Current(items, a)
    requires b == a[items[0].name := Rescued(items[0].deployment)] && Returned(items[1..], b, c)
    ensures Returned(items, a, c)
  {
    assert items == [items[0]] + items[1..];
    forall name | name in a
      ensures c[name] == if Item(name, a[name]) in items then Rescued(a[name]) else a[name]
    {
      if name == items[0].name {
        assert Item(name, b[name]) !in items[1..];
        assert a[name] == items[0].deployment;
      }
    }
  }

  lemma {:induction false} RestoreEachDone(w: World, items: seq<Item>)
    requires Fresh(w.script) && Current(items, w.objects)
    ensures var (w', ok) := RestoreEach(w, items);
            ok ==> RecordsReadable(items) && Returned(items, w.objects, w'.objects)
    decreases |items|
  {
    if items != [] {
      var first := items[0];
      assert w.objects[first.name] == first.deployment;
      if !IsScaledDownByOperator(first.deployment) {
        assert w.objects == w.objects[first.name := Rescued(first.deployment)];
        RestoreEachDone(w, items[1..]);
        if RestoreEach(w, items).1 {
          ReturnedNext(items, w.objects, w.objects, RestoreEach(w, items).0.objects);
        }
      } else {
        RestoreDone(w, first.name);
        var w1 := Restore(w, first.name).0;
        if RestoreEach(w, items).1 {
          RestoreEachDone(w1, items[1..]);
          ReturnedNext(items, w.objects, w1.objects, RestoreEach(w, items).0.objects);
        }
      }
    }
  }

  /** A cleanup that reports success has given back every marked Deployment of the namespace, each with all four
      annotations gone and its replicas at the recorded count, and touched no other; and every record was readable. */
  lemma CleanupDone(w: World, order: seq<string>)
    requires Fresh(w.script) && Lists(order, w.objects) && Cleanup(w, order).1
    ensures RescuedIn(w.objects, Cleanup(w, order).0.objects, order)
    ensures forall name :: name in w.objects ==> Effective(w.objects[name]).Some?
    ensures forall name :: name in w.objects ==>
              var d := Cleanup(w, order).0.objects[name];
              !IsScaledDownByOperator(d) && Some(Wanted(d)) == Effective(w.objects[name])
  {
    assert w.Seen() == w.objects;
    ItemsCurrent(w.objects, order);
    var (w1, items) := w.List(order);
    RestoreEachDone(w1, items.value);
    forall name | name in w.objects ensures Effective(w.objects[name]).Some? {
      var i :| 0 <= i < |items.value| && items.value[i] == Item(name, w.objects[name]);
    }
  }

  /** From clean Deployments the way there and back changes nothing, except that replicas left unset come back as 1. */
  lemma RoundTrip(w: World, order: seq<string>, origin: Objects)
    requires Honest(w, origin) && Fresh(w.script) && Lists(order, w.objects) && Cleanup(w, order).1
    ensures var objects := Cleanup(w, order).0.objects;
            && objects.Keys == origin.Keys
            && forall name :: name in origin ==>
                 || objects[name] == origin[name]
                 || (origin[name].replicas.None? && objects[name] == origin[name].(replicas := Some(1)))
  {
    HonestNow(w, origin);
    CleanupDone(w, order);
    forall name | name in origin
      ensures var d := Cleanup(w, order).0.objects[name];
              || d == origin[name]
              || (origin[name].replicas.None? && d == origin[name].(replicas := Some(1)))
    {
      var d, o := w.objects[name], origin[name];
      FaithfulCount(d, o);
      if Held(d, o) {
        ReleaseHeld(d, o);
      } else {
        assert d.annotations - COST_KEYS == d.annotations;
      }
    }
  }

  // ------------------------------------------------------------------ it ends

  /** Calls still to fail. */
  function Faults(script: seq<Outcome>): nat {
    if script == [] then 0
    else (if script[0].Refused? || script[0].ReplyLost? then 1 else 0) + Faults(script[1..])
  }

  predicate Readable(objects: Objects) {
    forall name :: name in objects ==> Effective(objects[name]).Some?
  }

  lemma PatchProgress(w: World, name: string, edited: Deployment)
    requires Fresh(w.script) && name in w.objects && Readable(w.objects)
    requires edited.labels == w.objects[name].labels && Effective(edited).Some?
    ensures var (w', reply) := w.Patch(name, Diff(w.objects[name], edited));
            && Faults(w'.script) <= Faults(w.script) && (reply.None? ==> Faults(w'.script) < Faults(w.script))
            && w'.objects.Keys == w.objects.Keys && Readable(w'.objects)
  {
    PatchTo(w, name, edited);
    assert w.Revisions()[|w.past|] == w.objects;
  }

  lemma RestoreProgress(w: World, name: string)
    requires Fresh(w.script) && name in w.objects && Readable(w.objects)
    ensures var (w', ok) := Restore(w, name);
            && Faults(w'.script) <= Faults(w.script) && (!ok ==> Faults(w'.script) < Faults(w.script))
            && w'.objects.Keys == w.objects.Keys && Readable(w'.objects)
  {
    var (w1, got) := w.Get(name);
    if got.Some? && IsScaledDownByOperator(got.value) {
      var d := got.value;
      assert Effective(d).Some?;
      var scaled := WithReplicas(d, Record(d).value);
      PatchProgress(w1, name, scaled);
      PatchTo(w1, name, scaled);
      var (w2, reply) := w1.Patch(name, Diff(d, scaled));
      if reply.Some? {
        PatchProgress(w2, name, Stripped(scaled));
      }
    }
  }

  lemma {:induction false} RestoreEachProgress(w: World, items: seq<Item>)
    requires Fresh(w.script) && Readable(w.objects)
    requires forall i :: 0 <= i < |items| ==> items[i].name in w.objects
    ensures var (w', ok) := RestoreEach(w, items);
            && Faults(w'.script) <= Faults(w.script) && (!ok ==> Faults(w'.script) < Faults(w.script))
            && w'.objects.Keys == w.objects.Keys && Readable(w'.objects) && Fresh(w'.script)
    decreases |items|
  {
    if items == [] {
    } else if !IsScaledDownByOperator(items[0].deployment) {
      RestoreEachProgress(w, items[1..]);
    } else {
      RestoreProgress(w, items[0].name);
      RestoreDone(w, items[0].name);
      RestoreEachProgress(Restore(w, items[0].name).0, items[1..]);
    }
  }

  lemma CleanupProgress(w: World, order: seq<string>)
    requires Fresh(w.script) && Readable(w.objects)
    ensures var (w', ok) := Cleanup(w, order);
            && Faults(w'.script) <= Faults(w.script) && (!ok ==> Faults(w'.script) < Faults(w.script))
            && w'.objects.Keys == w.objects.Keys && Readable(w'.objects) && Fresh(w'.script)
  {
    assert w.Seen() == w.objects;
    var (w1, items) := w.List(order);
    if items.Some? {
      ItemsFrom(w.objects, order);
      RestoreEachProgress(w1, items.value);
    }
  }

  /** Cleanup attempts, each from what the last one left persisted, until one succeeds or `attempts` are used up. */
  function Retry(w: World, order: seq<string>, attempts: nat): (World, bool)
    decreases attempts
  {
    if attempts == 0 then (w, false)
    else
      var (w', ok) := Cleanup(w, order);
      if ok then (w', true) else Retry(w', order, attempts - 1)
  }

  /** A patch that keeps its Deployment's count keeps all counts. */
  lemma PatchCounts(w: World, name: string, edited: Deployment)
    requires Fresh(w.script) && name in w.objects && edited.labels == w.objects[name].labels
    requires Effective(edited) == Effective(w.objects[name])
    ensures var w' := w.Patch(name, Diff(w.objects[name], edited)).0;
            Fresh(w'.script) && CountsOf(w'.objects) == CountsOf(w.objects)
  {
    ApplyDiff(w.objects[name], edited);
  }

  lemma RestoreCounts(w: World, name: string)
    requires Fresh(w.script)
    ensures Fresh(Restore(w, name).0.script) && CountsOf(Restore(w, name).0.objects) == CountsOf(w.objects)
  {
    var (w1, got) := w.Get(name);
    if got.Some? && IsScaledDownByOperator(got.value) && Record(got.value).Some? {
      var d := got.value;
      var scaled := WithReplicas(d, Record(d).value);
      PatchCounts(w1, name, scaled);
      PatchTo(w1, name, scaled);
      var (w2, reply) := w1.Patch(name, Diff(d, scaled));
      if reply.Some? {
        PatchCounts(w2, name, Stripped(scaled));
      }
    }
  }

  lemma {:induction false} RestoreEachCounts(w: World, items: seq<Item>)
    requires Fresh(w.script)
    ensures Fresh(RestoreEach(w, items).0.script) && CountsOf(RestoreEach(w, items).0.objects) == CountsOf(w.objects)
    decreases |items|
  {
    if items == [] {
    } else if !IsScaledDownByOperator(items[0].deployment) {
      RestoreEachCounts(w, items[1..]);
    } else {
      RestoreCounts(w, items[0].name);
      RestoreEachCounts(Restore(w, items[0].name).0, items[1..]);
    }
  }

  /** A cleanup, failed or not, leaves every count as it was. */
  lemma CleanupCounts(w: World, order: seq<string>)
    requires Fresh(w.script)
    ensures Fresh(Cleanup(w, order).0.script) && CountsOf(Cleanup(w, order).0.objects) == CountsOf(w.objects)
  {
    var (w1, items) := w.List(order);
    if items.Some? {
      RestoreEachCounts(w1, items.value);
    }
  }

  predicate GivenBack(objects: Objects, counts: Counts) {
    objects.Keys == counts.Keys
    && forall name :: name in objects ==>
        !IsScaledDownByOperator(objects[name]) && Some(Wanted(objects[name])) == counts[name]
  }

  lemma CleanupGivesBack(w: World, order: seq<string>)
    requires Fresh(w.script) && Lists(order, w.objects) && Cleanup(w, order).1
    ensures GivenBack(Cleanup(w, order).0.objects, CountsOf(w.objects))
  {
    CleanupDone(w, order);
  }

  lemma {:induction false} RetrySucceeds(w: World, order: seq<string>, attempts: nat)
    requires Fresh(w.script) && Lists(order, w.objects) && Readable(w.objects) && attempts > Faults(w.script)
    ensures Retry(w, order, attempts).1 && GivenBack(Retry(w, order, attempts).0.objects, CountsOf(w.objects))
    decreases attempts
  {
    CleanupProgress(w, order);
    var (w', ok) := Cleanup(w, order);
    if ok {
      CleanupGivesBack(w, order);
    } else {
      CleanupCounts(w, order);
      RetrySucceeds(w', order, attempts - 1);
    }
  }

  /** One unreadable record and no cleanup ever succeeds, however often it is tried,
      so the budget keeps its finalizer. */
  lemma {:induction false} UnreadableBlocks(w: World, order: seq<string>, name: string, attempts: nat)
    requires Fresh(w.script) && Lists(order, w.objects)
    requires name in w.objects && Effective(w.objects[name]).None?
    ensures !Retry(w, order, attempts).1
    decreases attempts
  {
    if attempts > 0 {
      var (w', ok) := Cleanup(w, order);
      if ok {
        CleanupDone(w, order);
      } else {
        CleanupCounts(w, order);
        assert CountsOf(w'.objects).Keys == w'.objects.Keys && CountsOf(w.objects).Keys == w.objects.Keys;
        assert CountsOf(w'.objects)[name] == Effective(w.objects[name]);
        UnreadableBlocks(w', order, name, attempts - 1);
      }
    }
  }

  /** With finitely many faults to come, one attempt more than there are faults succeeds exactly if every record is
      readable, and it ends with every Deployment unmarked at its effective count. */
  lemma RetryEnds(w: World, order: seq<string>, attempts: nat)
    requires Fresh(w.script) && Lists(order, w.objects) && attempts > Faults(w.script)
    ensures Retry(w, order, attempts).1 <==> Readable(w.objects)
    ensures Readable(w.objects) ==> GivenBack(Retry(w, order, attempts).0.objects, CountsOf(w.objects))
  {
    if Readable(w.objects) {
      RetrySucceeds(w, order, attempts);
    } else {
      var name :| name in w.objects && Effective(w.objects[name]).None?;
      UnreadableBlocks(w, order, name, attempts);
    }
  }

  // ------------------------------------------------------------------ what a cleanup overlooks

  /** Restoring takes the mark off exactly if the copy it reads carries one, and touches no other Deployment. */
  lemma RestoreMark(w: World, name: string)
    requires Restore(w, name).1
    ensures var (w', read) := (Restore(w, name).0, w.Get(name).1);
            && read.Some? && w'.objects.Keys == w.objects.Keys
            && (!IsScaledDownByOperator(read.value) ==> w'.objects == w.objects)
            && (IsScaledDownByOperator(read.value) ==> name in w'.objects && !IsScaledDownByOperator(w'.objects[name]))
            && forall other :: other in w.objects && other != name ==> w'.objects[other] == w.objects[other]
  {
    var (w1, got) := w.Get(name);
    if IsScaledDownByOperator(got.value) {
      var d := got.value;
      var (w2, reply) := w1.Patch(name, Diff(d, WithReplicas(d, Record(d).value)));
      ApplyDiff(reply.value, Stripped(reply.value));
      assert SCALED_DOWN_BY in COST_KEYS;
    }
  }

  /** The cleanup sees `name` marked twice: in the list, and when its turn comes to be fetched. */
  predicate Notices(w: World, items: seq<Item>, name: string)
    decreases |items|
  {
    items != []
    && if !IsScaledDownByOperator(items[0].deployment) then Notices(w, items[1..], name)
       else if items[0].name == name then
         var got := w.Get(name).1; got.Some? && IsScaledDownByOperator(got.value)
       else Notices(Restore(w, items[0].name).0, items[1..], name)
  }

  /** `name` is not in the list any more. */
  lemma {:induction false} NeverAgain(w: World, items: seq<Item>, name: string)
    requires RestoreEach(w, items).1 && name in w.objects && forall i :: 0 <= i < |items| ==> items[i].name != name
    ensures var objects := RestoreEach(w, items).0.objects; name in objects && objects[name] == w.objects[name]
    ensures !Notices(w, items, name)
    decreases |items|
  {
    if items == [] {
    } else if !IsScaledDownByOperator(items[0].deployment) {
      NeverAgain(w, items[1..], name);
    } else {
      RestoreMark(w, items[0].name);
      NeverAgain(Restore(w, items[0].name).0, items[1..], name);
    }
  }

  lemma {:induction false} RestoreEachMarks(w: World, items: seq<Item>, name: string)
    requires RestoreEach(w, items).1 && name in w.objects && DistinctItems(items)
    ensures var objects := RestoreEach(w, items).0.objects;
            name in objects
            && (IsScaledDownByOperator(objects[name])
                <==> IsScaledDownByOperator(w.objects[name]) && !Notices(w, items, name))
    decreases |items|
  {
    if items == [] {
    } else if !IsScaledDownByOperator(items[0].deployment) {
      RestoreEachMarks(w, items[1..], name);
    } else {
      RestoreMark(w, items[0].name);
      var w1 := Restore(w, items[0].name).0;
      if items[0].name == name {
        NeverAgain(w1, items[1..], name);
      } else {
        RestoreEachMarks(w1, items[1..], name);
      }
    }
  }

  predicate NoticedBy(w: World, order: seq<string>, name: string) {
    var (w1, items) := w.List(order);
    items.Some? && Notices(w1, items.value, name)
  }

  /** After a cleanup that reports success, with any of its reads stale, a Deployment is marked exactly if it was marked
      and the cleanup did not notice. */
  lemma CleanupMarks(w: World, order: seq<string>, name: string)
    requires Cleanup(w, order).1 && Distinct(order) && name in w.objects
    ensures var objects := Cleanup(w, order).0.objects;
            name in objects
            && (IsScaledDownByOperator(objects[name])
                <==> IsScaledDownByOperator(w.objects[name]) && !NoticedBy(w, order, name))
  {
    ItemsCurrent(w.Seen(), order);
    var (w1, items) := w.List(order);
    RestoreEachMarks(w1, items.value, name);
  }

  /** When only the list may be stale, a marked Deployment is noticed exactly if the list shows the mark. */
  lemma {:induction false} FreshNotices(w: World, items: seq<Item>, name: string)
    requires Fresh(w.script) && RestoreEach(w, items).1 && DistinctItems(items)
    requires name in w.objects && IsScaledDownByOperator(w.objects[name])
    ensures Notices(w, items, name)
       <==> exists i :: 0 <= i < |items| && items[i].name == name && IsScaledDownByOperator(items[i].deployment)
    decreases |items|
  {
    if items != [] {
      assert items == [items[0]] + items[1..];
      if !IsScaledDownByOperator(items[0].deployment) {
        FreshNotices(w, items[1..], name);
      } else {
        RestoreMark(w, items[0].name);
        RestoreFresh(w, items[0].name);
        if items[0].name != name {
          FreshNotices(Restore(w, items[0].name).0, items[1..], name);
        }
      }
    }
  }

  predicate NoneMarked(objects: Objects) {
    forall name :: name in objects ==> !IsScaledDownByOperator(objects[name])
  }

  /** A successful cleanup with a possibly stale list and current fetches leaves no mark exactly if the list shows
      every Deployment as marked that is marked by now. */
  lemma StaleListCleanup(w: World, order: seq<string>)
    requires Cleanup(w, order).1 && Lists(order, w.objects) && Fresh(w.Called().script)
    ensures NoneMarked(Cleanup(w, order).0.objects)
       <==> forall name :: name in w.objects && IsScaledDownByOperator(w.objects[name]) ==>
              name in w.Seen() && IsScaledDownByOperator(w.Seen()[name])
  {
    var objects := Cleanup(w, order).0.objects;
    CleanupKeys(w, order);
    forall name | name in w.objects && IsScaledDownByOperator(w.objects[name])
      ensures IsScaledDownByOperator(objects[name]) <==> !(name in w.Seen() && IsScaledDownByOperator(w.Seen()[name]))
    {
      CleanupMarks(w, order, name);
      ItemsCurrent(w.Seen(), order);
      FreshNotices(w.Called(), Items(w.Seen(), order), name);
      ItemsShow(w.Seen(), order, name);
    }
    forall name | name in objects && !IsScaledDownByOperator(w.objects[name])
      ensures !IsScaledDownByOperator(objects[name])
    {
      CleanupMarks(w, order, name);
    }
  }

  lemma ItemsShow(objects: Objects, order: seq<string>, name: string)
    requires Distinct(order) && name in order
    ensures (exists i :: 0 <= i < |Items(objects, order)| && Items(objects, order)[i].name == name
                         && IsScaledDownByOperator(Items(objects, order)[i].deployment))
       <==> name in objects && IsScaledDownByOperator(objects[name])
  {
    ItemsCurrent(objects, order);
    var items := Items(objects, order);
    if name in objects {
      var i :| 0 <= i < |items| && items[i] == Item(name, objects[name]);
    }
  }

  lemma {:induction false} RestoreEachKeys(w: World, items: seq<Item>)
    requires RestoreEach(w, items).1
    ensures RestoreEach(w, items).0.objects.Keys == w.objects.Keys
    decreases |items|
  {
    if items == [] {
    } else if !IsScaledDownByOperator(items[0].deployment) {
      RestoreEachKeys(w, items[1..]);
    } else {
      RestoreMark(w, items[0].name);
      RestoreEachKeys(Restore(w, items[0].name).0, items[1..]);
    }
  }

  lemma CleanupKeys(w: World, order: seq<string>)
    requires Cleanup(w, order).1
    ensures Cleanup(w, order).0.objects.Keys == w.objects.Keys
  {
    var (w1, items) := w.List(order);
    RestoreEachKeys(w1, items.value);
  }

  // ------------------------------------------------------------------ how far there is to go

  /** Patches still needed: two while the replicas differ from the record, one while only the annotations remain. */
  function Weight(d: Deployment): nat {
    if !IsScaledDownByOperator(d) || Record(d).None? then 0
    else if d.replicas == Some(Record(d).value) then 1
    else 2
  }

  function Load(objects: Objects, names: seq<string>): nat {
    if names == [] then 0
    else (if names[0] in objects then Weight(objects[names[0]]) else 0) + Load(objects, names[1..])
  }

  lemma {:induction false} LoadUpdate(objects: Objects, names: seq<string>, name: string, d: Deployment)
    requires Distinct(names) && name in objects
    ensures name !in names ==> Load(objects[name := d], names) == Load(objects, names)
    ensures name in names ==>
              Load(objects[name := d], names) == Load(objects, names) - Weight(objects[name]) + Weight(d)
  {
    if names != [] {
      LoadUpdate(objects, names[1..], name, d);
      assert name in names <==> name == names[0] || name in names[1..];
    }
  }

  /** Every revision written between `w` and `w'` either repeats its predecessor (an empty patch) or lowers the load. */
  predicate Descends(w: World, w': World, names: seq<string>) {
    && w.Revisions() <= w'.Revisions()
    && forall i :: |w.past| <= i < |w'.past| ==>
         || w'.Revisions()[i + 1] == w'.Revisions()[i]
         || Load(w'.Revisions()[i + 1], names) < Load(w'.Revisions()[i], names)
  }

  lemma DescendsTransitive(a: World, b: World, c: World, names: seq<string>)
    requires Descends(a, b, names) && Descends(b, c, names)
    ensures Descends(a, c, names)
  {
    assert forall i :: 0 <= i < |b.Revisions()| ==> c.Revisions()[i] == b.Revisions()[i];
  }

  lemma PatchDescends(w: World, name: string, edited: Deployment, names: seq<string>)
    requires Fresh(w.script) && name in w.objects && edited.labels == w.objects[name].labels
    requires Distinct(names) && name in names && (edited == w.objects[name] || Weight(edited) < Weight(w.objects[name]))
    ensures Descends(w, w.Patch(name, Diff(w.objects[name], edited)).0, names)
  {
    PatchTo(w, name, edited);
    LoadUpdate(w.objects, names, name, edited);
    var w' := w.Patch(name, Diff(w.objects[name], edited)).0;
    assert w.objects[name := w.objects[name]] == w.objects;
    if w'.Revisions() != w.Revisions() {
      assert w'.Revisions() == w.Revisions() + [w'.objects];
      assert w'.Revisions()[|w.past|] == w.objects;
    }
  }

  /** Restoring only ever descends: every patch that says anything brings the namespace strictly closer to restored. */
  lemma RestoreDescends(w: World, name: string, names: seq<string>)
    requires Fresh(w.script) && Distinct(names) && name in names
    ensures Descends(w, Restore(w, name).0, names)
  {
    var (w1, got) := w.Get(name);
    assert Descends(w, w1, names);
    if got.Some? && IsScaledDownByOperator(got.value) && Record(got.value).Some? {
      var d := got.value;
      var scaled := WithReplicas(d, Record(d).value);
      assert scaled == d || Weight(scaled) < Weight(d);
      PatchDescends(w1, name, scaled, names);
      PatchTo(w1, name, scaled);
      var (w2, reply) := w1.Patch(name, Diff(d, scaled));
      DescendsTransitive(w, w1, w2, names);
      if reply.Some? {
        assert Weight(Stripped(scaled)) < Weight(scaled);
        PatchDescends(w2, name, Stripped(scaled), names);
        DescendsTransitive(w, w2, w2.Patch(name, Diff(scaled, Stripped(scaled))).0, names);
      }
    }
  }

  lemma {:induction false} RestoreEachDescends(w: World, items: seq<Item>, names: seq<string>)
    requires Fresh(w.script) && Distinct(names)
    requires forall i :: 0 <= i < |items| ==> items[i].name in names
    ensures Descends(w, RestoreEach(w, items).0, names)
    decreases |items|
  {
    if items == [] {
    } else if !IsScaledDownByOperator(items[0].deployment) {
      RestoreEachDescends(w, items[1..], names);
    } else {
      RestoreDescends(w, items[0].name, names);
      var (w1, ok) := Restore(w, items[0].name);
      if ok {
        RestoreDone(w, items[0].name);
        RestoreEachDescends(w1, items[1..], names);
        DescendsTransitive(w, w1, RestoreEach(w1, items[1..]).0, names);
      }
    }
  }

  lemma CleanupDescends(w: World, order: seq<string>)
    requires Fresh(w.script) && Distinct(order)
    ensures Descends(w, Cleanup(w, order).0, order)
    ensures Cleanup(w, order).1 && Lists(order, w.objects) ==> Load(Cleanup(w, order).0.objects, order) == 0
  {
    var (w1, items) := w.List(order);
    if items.Some? {
      ItemsCurrent(w.objects, order);
      RestoreEachDescends(w1, items.value, order);
      assert Descends(w, w1, order);
      DescendsTransitive(w, w1, RestoreEach(w1, items.value).0, order);
    }
    if Cleanup(w, order).1 && Lists(order, w.objects) {
      CleanupDone(w, order);
      NothingToLoad(Cleanup(w, order).0.objects, order);
    }
  }

  lemma {:induction false} NothingToLoad(objects: Objects, names: seq<string>)
    requires forall name :: name in objects ==> !IsScaledDownByOperator(objects[name])
    ensures Load(objects, names) == 0
  {
    if names != [] {
      NothingToLoad(objects, names[1..]);
    }
  }

  // ------------------------------------------------------------------ the command line

  /** How many of the listed Deployments are marked with a readable record. */
  function Rescuable(items: seq<Item>): nat {
    if items == [] then 0
    else (if Weight(items[0].deployment) > 0 then 1 else 0) + Rescuable(items[1..])
  }

  lemma {:induction false} CliRestoreEachDone(w: World, items: seq<Item>)
    requires w.script == [] && Current(items, w.objects)
    ensures CliRestoreEach(w, items).1 == Rescuable(items)
    ensures var w' := CliRestoreEach(w, items).0;
            && w'.objects.Keys == w.objects.Keys
            && forall name :: name in w.objects ==>
                 w'.objects[name]
                   == if Item(name, w.objects[name]) in items then Rescued(w.objects[name]) else w.objects[name]
    decreases |items|
  {
    if items != [] {
      var d := items[0].deployment;
      if IsScaledDownByOperator(d) && Record(d).Some? {
        ApplyDiff(d, Released(d, Record(d).value));
      }
      assert forall item :: item in items <==> item == items[0] || item in items[1..];
      assert forall item :: item in items[1..] ==> item.name != items[0].name;
      CliRestoreEachDone(CliRestoreOne(w, items[0].name, d).0, items[1..]);
    }
  }

  /** Of the next `n` calls, those that are confirmed. */
  function Confirmed(script: seq<Outcome>, n: nat): nat {
    if n == 0 then 0
    else if script == [] then n
    else (if Confirms(script[0]) then 1 else 0) + Confirmed(script[1..], n - 1)
  }

  lemma CliRestoreOneCounts(w: World, item: Item)
    requires item.name in w.objects
    ensures var (w', restored) := CliRestoreOne(w, item.name, item.deployment);
            && w'.objects.Keys == w.objects.Keys
            && (restored <==> Weight(item.deployment) > 0 && Confirms(w.Head()))
            && w'.script == if Weight(item.deployment) > 0 then w.Called().script else w.script
  {
  }

  lemma {:induction false} CliRestoreEachCounts(w: World, items: seq<Item>)
    requires forall i :: 0 <= i < |items| ==> items[i].name in w.objects
    ensures CliRestoreEach(w, items).1 == Confirmed(w.script, Rescuable(items))
    decreases |items|
  {
    if items != [] {
      var (w1, restored) := CliRestoreOne(w, items[0].name, items[0].deployment);
      CliRestoreOneCounts(w, items[0]);
      CliRestoreEachCounts(w1, items[1..]);
    }
  }

  /** The command counts exactly the confirmed patches, one for each Deployment listed with a readable record. */
  lemma CliRestoreCounts(w: World, order: seq<string>)
    requires w.Seen().Keys <= w.objects.Keys
    ensures var items := w.List(order).1;
            CliRestore(w, order).1
              == if items.None? then None else Some(Confirmed(w.Called().script, Rescuable(items.value)))
  {
    var (w1, items) := w.List(order);
    if items.Some? {
      ItemsFrom(w.Seen(), order);
      CliRestoreEachCounts(w1, items.value);
    }
  }

  /** Without faults the command gives back every Deployment whose record it can read, in one patch each, and counts
      them; */
  lemma CliRestoreDone(w: World, order: seq<string>)
    requires w.script == [] && Lists(order, w.objects)
    ensures RescuedIn(w.objects, CliRestore(w, order).0.objects, order)
    ensures CliRestore(w, order).1 == Some(Rescuable(Items(w.objects, order)))
  {
    assert w.Seen() == w.objects;
    ItemsCurrent(w.objects, order);
    CliRestoreEachDone(w, Items(w.objects, order));
  }

  /** so it reaches the very Deployments that the controller's two-patch cleanup reaches whenever that succeeds. */
  lemma CliAgreesWithCleanup(w: World, order: seq<string>)
    requires Fresh(w.script) && Lists(order, w.objects) && Cleanup(w, order).1
    ensures CliRestore(w.(script := []), order).0.objects == Cleanup(w, order).0.objects
  {
    CleanupDone(w, order);
    CliRestoreDone(w.(script := []), order);
  }
}
