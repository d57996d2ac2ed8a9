/** Which Deployments the operator must leave alone: by exact name or by a label selector. */
module Exclusions {
  import opened Options
  import opened Deployments

  /** A label selector of the budget. Turning it into a matcher may fail; how it matches is left open. */
  datatype Selector = Malformed | Selector(matches: map<string, string> -> bool)
  datatype Exclusion = Exclusion(name: string, selector: Option<Selector>)

  predicate NamedBy(name: string, ex: Exclusion) {
    ex.name != "" && ex.name == name
  }

  predicate SelectedBy(labels: map<string, string>, ex: Exclusion) {
    ex.selector.Some? && ex.selector.value.Selector? && ex.selector.value.matches(labels)
  }

  predicate NameExcluded(name: string, exclusions: seq<Exclusion>) {
    exists i :: 0 <= i < |exclusions| && NamedBy(name, exclusions[i])
  }

  predicate LabelExcluded(labels: map<string, string>, exclusions: seq<Exclusion>) {
    exists i :: 0 <= i < |exclusions| && SelectedBy(labels, exclusions[i])
  }

  predicate Excluded(name: string, labels: map<string, string>, exclusions: seq<Exclusion>) {
    NameExcluded(name, exclusions) || LabelExcluded(labels, exclusions)
  }

  method IsExcluded(name: string, exclusions: seq<Exclusion>) returns (excluded: bool)
    ensures excluded == NameExcluded(name, exclusions)
    ensures excluded <==> exists i :: 0 <= i < |exclusions| && exclusions[i].name != "" && exclusions[i].name == name
  {
    for i := 0 to |exclusions|
      invariant forall j :: 0 <= j < i ==> !NamedBy(name, exclusions[j])
    {
      if exclusions[i].name != "" && exclusions[i].name == name {
        return true;
      }
    }
    return false;
  }

  /** A malformed selector is skipped; the exclusions after it still count. */
  method IsLabelExcluded(d: Deployment, exclusions: seq<Exclusion>) returns (excluded: bool)
    ensures excluded == LabelExcluded(d.labels, exclusions)
    ensures excluded
       <==> exists i :: 0 <= i < |exclusions| && exclusions[i].selector.Some? && exclusions[i].selector.value.Selector?
                        && exclusions[i].selector.value.matches(d.labels)
  {
    for i := 0 to |exclusions|
      invariant forall j :: 0 <= j < i ==> !SelectedBy(d.labels, exclusions[j])
    {
      if exclusions[i].selector.None? {
        continue;
      }
      var selector := exclusions[i].selector.value;
      if selector.Malformed? {
        continue;
      }
      if selector.matches(d.labels) {
        return true;
      }
    }
    return false;
  }
}
