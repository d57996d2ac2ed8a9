/** Deployments as the operator sees them, and the patches it sends: JSON merge patches
    (section 2 of RFC 7386) computed between a base copy and the edited copy, as `client.MergeFrom` does. */
module Deployments {
  import opened Options
  import opened Decimal

  const SCALED_DOWN_BY := "cost.platform.io/scaled-down-by"
  const SCALED_DOWN_AT := "cost.platform.io/scaled-down-at"
  const ORIGINAL_REPLICAS := "cost.platform.io/original-replicas"
  const REASON := "cost.platform.io/reason"
  const COST_KEYS := {SCALED_DOWN_BY, SCALED_DOWN_AT, ORIGINAL_REPLICAS, REASON}
  const OPERATOR := "namespace-cost-governor"
  const IDLE_REASON := "idle:cpu<threshold:30m"

  /** An absent `annotations` member and an empty one are the same document. */
  datatype Deployment = Deployment(labels: map<string, string>, replicas: Option<Int32>,
                                   annotations: map<string, string>)

  /** The `annotations` member of a merge patch: null, or one entry per key that differs (None is null). */
  datatype AnnotationsPatch = Clear | Merge(edits: map<string, Option<string>>)
  datatype ReplicasPatch = Keep | Set(replicas: Option<Int32>)
  datatype Patch = Patch(annotations: AnnotationsPatch, replicas: ReplicasPatch)

  const EMPTY_PATCH := Patch(Merge(map[]), Keep)

  /** The merge patch from `base` to `edited`. An empty `annotations` map is left out of the document,
      so removing the last annotation nulls the whole member. */
  function Diff(base: Deployment, edited: Deployment): Patch {
    var annotations :=
      if edited.annotations == map[] && base.annotations != map[] then Clear
      else Merge(map k | k in base.annotations.Keys + edited.annotations.Keys
                   && !(k in base.annotations && k in edited.annotations
                        && base.annotations[k] == edited.annotations[k])
                   :: if k in edited.annotations then Some(edited.annotations[k]) else None);
    Patch(annotations, if base.replicas == edited.replicas then Keep else Set(edited.replicas))
  }

  function MergeAnnotations(target: map<string, string>, edits: map<string, Option<string>>): map<string, string> {
    map k | k in target.Keys + edits.Keys && (k in edits ==> edits[k].Some?)
      :: if k in edits then edits[k].value else target[k]
  }

  /** What the server makes of a patch. */
  function Apply(target: Deployment, patch: Patch): Deployment {
    target.(
      annotations := if patch.annotations.Clear? then map[]
                     else MergeAnnotations(target.annotations, patch.annotations.edits),
      replicas := if patch.replicas.Keep? then target.replicas else patch.replicas.replicas)
  }

  /** Sent to the object it was computed from, a merge patch yields exactly the edited copy. */
  lemma ApplyDiff(base: Deployment, edited: Deployment)
    requires base.labels == edited.labels
    ensures Apply(base, Diff(base, edited)) == edited
  {
    assert Apply(base, Diff(base, edited)).annotations == edited.annotations;
  }

  /** A patch that was applied although its reply was lost can be sent again. */
  lemma ApplyTwice(target: Deployment, patch: Patch)
    ensures Apply(Apply(target, patch), patch) == Apply(target, patch)
  {
    assert Apply(Apply(target, patch), patch).annotations == Apply(target, patch).annotations;
  }

  /** A merge patch is empty exactly when nothing was edited, and then leaves any object alone. */
  lemma EmptyDiff(base: Deployment, edited: Deployment, target: Deployment)
    ensures Diff(base, edited) == EMPTY_PATCH
        <==> base.annotations == edited.annotations && base.replicas == edited.replicas
    ensures Apply(target, EMPTY_PATCH) == target
  {
    assert Apply(target, EMPTY_PATCH).annotations == target.annotations;
    var patch := Diff(base, edited);
    if patch == EMPTY_PATCH {
      forall k | k in base.annotations.Keys + edited.annotations.Keys
        ensures k in base.annotations && k in edited.annotations && base.annotations[k] == edited.annotations[k]
      {
        assert k !in patch.annotations.edits;
      }
      assert base.annotations == edited.annotations;
    }
  }

  predicate IsScaledDownByOperator(d: Deployment) {
    SCALED_DOWN_BY in d.annotations && d.annotations[SCALED_DOWN_BY] == OPERATOR
  }

  /** The recorded replica count, if there is one that `Restore` can read. */
  function Record(d: Deployment): Option<Int32> {
    if ORIGINAL_REPLICAS in d.annotations then ParseInt32(d.annotations[ORIGINAL_REPLICAS]) else None
  }

  /** The replicas a Deployment asks for when the field may be unset. */
  function Wanted(d: Deployment): Int32 {
    d.replicas.GetOr(1)
  }

  /** The count the Deployment had, or is to be given back: the record if the operator marked it, else its replicas.
      None for a marked Deployment whose record is missing or unreadable. */
  function Effective(d: Deployment): Option<Int32> {
    if IsScaledDownByOperator(d) then Record(d) else Some(Wanted(d))
  }

  predicate AtZero(d: Deployment) {
    d.replicas == Some(0)
  }

  /** The edited copy of the first patch of `ScaleDown`. */
  function Annotated(d: Deployment, stamp: string): Deployment {
    d.(annotations := d.annotations[SCALED_DOWN_BY := OPERATOR][SCALED_DOWN_AT := stamp]
       [ORIGINAL_REPLICAS := FormatInt(Wanted(d))][REASON := IDLE_REASON])
  }

  /** The edited copy of the second patch of `Restore`. */
  function Stripped(d: Deployment): Deployment {
    d.(annotations := d.annotations - COST_KEYS)
  }

  function WithReplicas(d: Deployment, n: Int32): Deployment {
    d.(replicas := Some(n))
  }
}
