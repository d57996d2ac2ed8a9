/** Idle detection: from per-pod samples to the Deployments whose pods are quiet, whatever order maps are walked in. */
module Detector {
  import opened Metrics
  import opened Budgets

  // ------------------------------------------------------------------ pod names

  function Split(s: string): (parts: seq<string>)
    ensures parts != []
  {
    if s == "" then [""]
    else
      var rest := Split(s[1..]);
      if s[0] == '-' then [""] + rest else [[s[0]] + rest[0]] + rest[1..]
  }

  function Join(parts: seq<string>): string {
    if parts == [] then ""
    else if |parts| == 1 then parts[0]
    else parts[0] + "-" + Join(parts[1..])
  }

  /** Strips the last two hyphen-separated parts, if there are more than two. */
  function PodToDeployment(pod: string): string {
    var parts := Split(pod);
    if |parts| <= 2 then pod else Join(parts[..|parts| - 2])
  }

  lemma {:induction false} JoinSplit(s: string)
    ensures Join(Split(s)) == s
  {
    if s != "" {
      JoinSplit(s[1..]);
      var rest := Split(s[1..]);
      if s[0] == '-' {
        assert ([""] + rest)[1..] == rest;
      } else {
        assert Split(s)[1..] == rest[1..];
        if |rest| > 1 {
          assert Join(Split(s)) == [s[0]] + rest[0] + "-" + Join(rest[1..]);
        }
      }
    }
  }

  lemma {:induction false} SplitPlain(s: string)
    requires '-' !in s
    ensures Split(s) == [s]
  {
    if s != "" {
      assert s[0] in s && [s[0]] + s[1..] == s;
      SplitPlain(s[1..]);
    }
  }

  lemma {:induction false} SplitHyphen(a: string, b: string)
    ensures Split(a + "-" + b) == Split(a) + Split(b)
  {
    var s := a + "-" + b;
    if a == "" {
      assert s[1..] == b;
    } else {
      assert s[1..] == a[1..] + "-" + b;
      SplitHyphen(a[1..], b);
    }
  }

  lemma {:induction false} PartsPlain(s: string)
    ensures forall i :: 0 <= i < |Split(s)| ==> '-' !in Split(s)[i]
  {
    if s != "" {
      PartsPlain(s[1..]);
    }
  }

  lemma {:induction false} JoinAppend(parts: seq<string>, last: string)
    requires parts != []
    ensures Join(parts + [last]) == Join(parts) + "-" + last
  {
    if |parts| == 1 {
      assert (parts + [last])[1..] == [last];
    } else {
      assert (parts + [last])[1..] == parts[1..] + [last];
      JoinAppend(parts[1..], last);
    }
  }

  predicate IsPodOf(pod: string, deployment: string, hash: string, suffix: string) {
    '-' !in hash && '-' !in suffix && pod == deployment + "-" + hash + "-" + suffix
  }

  /** A pod named after its Deployment, its replica set's hash and a random suffix leads back to the Deployment,
      however many hyphens that name has. */
  lemma PodOfDeployment(pod: string, deployment: string, hash: string, suffix: string)
    requires IsPodOf(pod, deployment, hash, suffix)
    ensures PodToDeployment(pod) == deployment
  {
    SplitHyphen(deployment + "-" + hash, suffix);
    SplitHyphen(deployment, hash);
    SplitPlain(hash);
    SplitPlain(suffix);
    var parts := Split(pod);
    assert parts[..|parts| - 2] == Split(deployment);
    JoinSplit(deployment);
  }

  /** And only such pods do, besides a pod of at most one hyphen, which stands for itself. */
  lemma PodToDeploymentOnlyIf(pod: string)
    ensures |Split(pod)| <= 2 ==> PodToDeployment(pod) == pod
    ensures |Split(pod)| > 2 ==> exists hash, suffix :: IsPodOf(pod, PodToDeployment(pod), hash, suffix)
  {
    var parts := Split(pod);
    if |parts| > 2 {
      PartsPlain(pod);
      JoinSplit(pod);
      var front, hash, suffix := parts[..|parts| - 2], parts[|parts| - 2], parts[|parts| - 1];
      assert parts == front + [hash] + [suffix];
      JoinTwo(front, hash, suffix);
      assert IsPodOf(pod, PodToDeployment(pod), hash, suffix);
    }
  }

  lemma JoinTwo(front: seq<string>, hash: string, suffix: string)
    requires front != []
    ensures Join(front + [hash] + [suffix]) == Join(front) + "-" + hash + "-" + suffix
  {
    JoinAppend(front + [hash], suffix);
    JoinAppend(front, hash);
  }

  // ------------------------------------------------------------------ means

  function PodValues(samples: seq<Sample>, pod: string): seq<real> {
    if samples == [] then []
    else if samples[0].pod == pod then [samples[0].value] + PodValues(samples[1..], pod)
    else PodValues(samples[1..], pod)
  }

  function Mean(values: seq<real>): real
    requires values != []
  {
    Sum(values) / |values| as real
  }

  function Pods(samples: seq<Sample>): set<string> {
    set i | 0 <= i < |samples| :: samples[i].pod
  }

  lemma {:induction false} PodValuesAppend(samples: seq<Sample>, s: Sample, pod: string)
    ensures PodValues(samples + [s], pod)
         == if s.pod == pod then PodValues(samples, pod) + [s.value] else PodValues(samples, pod)
  {
    if samples == [] {
      assert (samples + [s])[1..] == [];
    } else {
      assert (samples + [s])[1..] == samples[1..] + [s];
      PodValuesAppend(samples[1..], s, pod);
    }
  }

  lemma {:induction false} PodHasValues(samples: seq<Sample>, pod: string)
    ensures pod in Pods(samples) <==> PodValues(samples, pod) != []
  {
    if samples != [] {
      PodHasValues(samples[1..], pod);
      assert forall i :: 1 <= i < |samples| ==> samples[1..][i - 1] == samples[i];
      if pod in Pods(samples) && samples[0].pod != pod {
        var i :| 0 <= i < |samples| && samples[i].pod == pod;
        assert samples[1..][i - 1].pod == pod;
      }
      if pod in Pods(samples[1..]) {
        var i :| 0 <= i < |samples[1..]| && samples[1..][i].pod == pod;
        assert samples[i + 1].pod == pod;
      }
    }
  }

  /** The mean of each pod's samples. */
  function PodMeans(samples: seq<Sample>): map<string, real> {
    map pod | pod in Pods(samples) :: PodMean(samples, pod)
  }

  function PodMean(samples: seq<Sample>, pod: string): real {
    var values := PodValues(samples, pod);
    if values == [] then 0.0 else Mean(values)
  }

  ghost predicate TalliedAt(sums: map<string, real>, counts: map<string, nat>, samples: seq<Sample>, pod: string) {
    var values := PodValues(samples, pod);
    && (pod in sums <==> values != [])
    && (pod in counts <==> values != [])
    && (values != [] ==> sums[pod] == Sum(values) && counts[pod] == |values|)
  }

  /** The running sums and counts over a prefix of the samples. */
  ghost predicate Tallied(sums: map<string, real>, counts: map<string, nat>, samples: seq<Sample>) {
    forall pod :: TalliedAt(sums, counts, samples, pod)
  }

  lemma TallyOne(sums: map<string, real>, counts: map<string, nat>, samples: seq<Sample>, s: Sample)
    requires Tallied(sums, counts, samples)
    ensures Tallied(sums[s.pod := (if s.pod in sums then sums[s.pod] else 0.0) + s.value],
                    counts[s.pod := (if s.pod in counts then counts[s.pod] else 0) + 1], samples + [s])
  {
    var sums' := sums[s.pod := (if s.pod in sums then sums[s.pod] else 0.0) + s.value];
    var counts' := counts[s.pod := (if s.pod in counts then counts[s.pod] else 0) + 1];
    forall pod ensures TalliedAt(sums', counts', samples + [s], pod) {
      assert TalliedAt(sums, counts, samples, pod);
      PodValuesAppend(samples, s, pod);
      SumAppend(PodValues(samples, pod), [s.value]);
    }
  }

  lemma TallyMean(sums: map<string, real>, counts: map<string, nat>, samples: seq<Sample>, pod: string)
    requires Tallied(sums, counts, samples) && pod in sums
    ensures pod in counts && counts[pod] > 0 && sums[pod] / counts[pod] as real == PodMean(samples, pod)
  {
    assert TalliedAt(sums, counts, samples, pod);
  }

  /** Collapses samples into a map from pod to mean value. */
  method AverageByPod(samples: seq<Sample>) returns (result: map<string, real>)
    ensures result == PodMeans(samples)
  {
    var sums: map<string, real>, counts: map<string, nat> := map[], map[];
    for i := 0 to |samples|
      invariant Tallied(sums, counts, samples[..i])
    {
      var s := samples[i];
      TallyOne(sums, counts, samples[..i], s);
      assert samples[..i + 1] == samples[..i] + [s];
      sums := sums[s.pod := (if s.pod in sums then sums[s.pod] else 0.0) + s.value];
      counts := counts[s.pod := (if s.pod in counts then counts[s.pod] else 0) + 1];
    }
    assert samples[..|samples|] == samples;
    result := Divide(sums, counts, samples);
  }

  method Divide(sums: map<string, real>, counts: map<string, nat>, ghost samples: seq<Sample>)
      returns (result: map<string, real>)
    requires Tallied(sums, counts, samples)
    ensures result == PodMeans(samples)
  {
    result := map[];
    var rest := sums.Keys;
    while rest != {}
      invariant rest <= sums.Keys
      invariant result.Keys == sums.Keys - rest
      invariant forall pod :: pod in result ==> result[pod] == PodMean(samples, pod)
      decreases rest
    {
      var pod :| pod in rest;
      TallyMean(sums, counts, samples, pod);
      result := result[pod := sums[pod] / counts[pod] as real];
      rest := rest - {pod};
    }
    forall pod ensures pod in sums <==> pod in Pods(samples) {
      assert TalliedAt(sums, counts, samples, pod);
      PodHasValues(samples, pod);
    }
  }

  /** The samples under their Deployments' names. */
  function ByDeployment(samples: seq<Sample>): seq<Sample> {
    if samples == [] then []
    else [Sample(PodToDeployment(samples[0].pod), samples[0].value)] + ByDeployment(samples[1..])
  }

  lemma {:induction false} ByDeploymentAppend(samples: seq<Sample>, s: Sample)
    ensures ByDeployment(samples + [s]) == ByDeployment(samples) + [Sample(PodToDeployment(s.pod), s.value)]
  {
    if samples == [] {
      assert (samples + [s])[1..] == [];
    } else {
      assert (samples + [s])[1..] == samples[1..] + [s];
      ByDeploymentAppend(samples[1..], s);
    }
  }

  /** The report's collapse of samples into one flat mean per Deployment. */
  method AggregateByDeployment(samples: seq<Sample>) returns (result: map<string, real>)
    ensures result == PodMeans(ByDeployment(samples))
  {
    var sums: map<string, real>, counts: map<string, nat> := map[], map[];
    for i := 0 to |samples|
      invariant Tallied(sums, counts, ByDeployment(samples[..i]))
    {
      var s := samples[i];
      var deployment := PodToDeployment(s.pod);
      TallyOne(sums, counts, ByDeployment(samples[..i]), Sample(deployment, s.value));
      assert samples[..i + 1] == samples[..i] + [s];
      ByDeploymentAppend(samples[..i], s);
      sums := sums[deployment := (if deployment in sums then sums[deployment] else 0.0) + s.value];
      counts := counts[deployment := (if deployment in counts then counts[deployment] else 0) + 1];
    }
    assert samples[..|samples|] == samples;
    result := Divide(sums, counts, ByDeployment(samples));
  }

  // ------------------------------------------------------------------ means of means

  ghost function TotalOver(pods: set<string>, values: map<string, real>): real
    requires pods <= values.Keys
  {
    if pods == {} then 0.0
    else
      var pod :| pod in pods;
      values[pod] + TotalOver(pods - {pod}, values)
  }

  /** Which pod is taken first does not matter. */
  lemma {:induction false} TotalOverPick(pods: set<string>, values: map<string, real>, pod: string)
    requires pods <= values.Keys && pod in pods
    ensures TotalOver(pods, values) == values[pod] + TotalOver(pods - {pod}, values)
    decreases pods
  {
    var first :| first in pods && TotalOver(pods, values) == values[first] + TotalOver(pods - {first}, values);
    if first != pod {
      TotalOverPick(pods - {first}, values, pod);
      TotalOverPick(pods - {pod}, values, first);
      assert pods - {first} - {pod} == pods - {pod} - {first};
    }
  }

  function PodsOf(pods: set<string>, deployment: string): set<string> {
    set pod | pod in pods && PodToDeployment(pod) == deployment
  }

  /** The mean of the means of the Deployment's pods. */
  ghost function MeanOfMeans(means: map<string, real>, deployment: string): real
    requires PodsOf(means.Keys, deployment) != {}
  {
    TotalOver(PodsOf(means.Keys, deployment), means) / |PodsOf(means.Keys, deployment)| as real
  }

  ghost predicate IsIdle(samples: seq<Sample>, threshold: real, deployment: string) {
    QuietIn(PodMeans(samples), threshold, deployment)
  }

  ghost predicate SummedAt(sums: map<string, real>, counts: map<string, nat>, means: map<string, real>,
                           walked: set<string>, deployment: string)
    requires walked <= means.Keys
  {
    var pods := PodsOf(walked, deployment);
    && (deployment in sums <==> pods != {})
    && (deployment in counts <==> pods != {})
    && (pods != {} ==> sums[deployment] == TotalOver(pods, means) && counts[deployment] == |pods|)
  }

  /** The per-Deployment sums over the pods walked so far. */
  ghost predicate Summed(sums: map<string, real>, counts: map<string, nat>, means: map<string, real>,
                         walked: set<string>)
    requires walked <= means.Keys
  {
    forall deployment :: SummedAt(sums, counts, means, walked, deployment)
  }

  lemma PodsOfMore(walked: set<string>, pod: string, deployment: string)
    ensures PodsOf(walked + {pod}, deployment)
         == PodsOf(walked, deployment) + (if PodToDeployment(pod) == deployment then {pod} else {})
  {}

  lemma TotalOverMore(pods: set<string>, means: map<string, real>, pod: string)
    requires pods <= means.Keys && pod in means && pod !in pods
    ensures TotalOver(pods + {pod}, means) == TotalOver(pods, means) + means[pod]
  {
    TotalOverPick(pods + {pod}, means, pod);
    assert pods + {pod} - {pod} == pods;
  }

  lemma SumHere(sums: map<string, real>, counts: map<string, nat>, means: map<string, real>, walked: set<string>,
                pod: string)
    requires walked <= means.Keys && pod in means && pod !in walked
    requires SummedAt(sums, counts, means, walked, PodToDeployment(pod))
    ensures var d := PodToDeployment(pod);
            SummedAt(sums[d := (if d in sums then sums[d] else 0.0) + means[pod]],
                     counts[d := (if d in counts then counts[d] else 0) + 1], means, walked + {pod}, d)
  {
    var d := PodToDeployment(pod);
    PodsOfMore(walked, pod, d);
    TotalOverMore(PodsOf(walked, d), means, pod);
  }

  lemma SumElsewhere(sums: map<string, real>, counts: map<string, nat>, means: map<string, real>, walked: set<string>,
                     pod: string, other: string, sum: real, count: nat)
    requires walked <= means.Keys && pod in means && other != PodToDeployment(pod)
    requires SummedAt(sums, counts, means, walked, other)
    ensures var d := PodToDeployment(pod);
            SummedAt(sums[d := sum], counts[d := count], means, walked + {pod}, other)
  {
    PodsOfMore(walked, pod, other);
    assert PodsOf(walked + {pod}, other) == PodsOf(walked, other);
  }

  lemma SumOne(sums: map<string, real>, counts: map<string, nat>, means: map<string, real>, walked: set<string>,
               pod: string)
    requires walked <= means.Keys && pod in means && pod !in walked && Summed(sums, counts, means, walked)
    ensures var d := PodToDeployment(pod);
            Summed(sums[d := (if d in sums then sums[d] else 0.0) + means[pod]],
                   counts[d := (if d in counts then counts[d] else 0) + 1], means, walked + {pod})
  {
    var d := PodToDeployment(pod);
    var sums' := sums[d := (if d in sums then sums[d] else 0.0) + means[pod]];
    var counts' := counts[d := (if d in counts then counts[d] else 0) + 1];
    forall other ensures SummedAt(sums', counts', means, walked + {pod}, other) {
      assert SummedAt(sums, counts, means, walked, other);
      if other == d {
        SumHere(sums, counts, means, walked, pod);
      } else {
        SumElsewhere(sums, counts, means, walked, pod, other, sums'[d], counts'[d]);
      }
    }
  }

  predicate DistinctNames(workloads: seq<IdleWorkload>) {
    forall i, j :: 0 <= i < j < |workloads| ==> workloads[i].name != workloads[j].name
  }

  predicate Names(workloads: seq<IdleWorkload>, name: string) {
    exists i :: 0 <= i < |workloads| && workloads[i].name == name
  }

  predicate AllAt(workloads: seq<IdleWorkload>, namespace: string, start: real) {
    forall i :: 0 <= i < |workloads| ==> workloads[i].namespace == namespace && workloads[i].since == start
  }

  /** The first loop of `DetectIdle`: over the pods, in any order. */
  method SumByDeployment(podAvg: map<string, real>) returns (depSums: map<string, real>, depCounts: map<string, nat>)
    ensures Summed(depSums, depCounts, podAvg, podAvg.Keys)
  {
    depSums, depCounts := map[], map[];
    var rest := podAvg.Keys;
    assert podAvg.Keys - rest == {};
    while rest != {}
      invariant rest <= podAvg.Keys
      invariant Summed(depSums, depCounts, podAvg, podAvg.Keys - rest)
      decreases rest
    {
      var pod :| pod in rest;
      var dep := PodToDeployment(pod);
      SumOne(depSums, depCounts, podAvg, podAvg.Keys - rest, pod);
      assert podAvg.Keys - rest + {pod} == podAvg.Keys - (rest - {pod});
      depSums := depSums[dep := (if dep in depSums then depSums[dep] else 0.0) + podAvg[pod]];
      depCounts := depCounts[dep := (if dep in depCounts then depCounts[dep] else 0) + 1];
      rest := rest - {pod};
    }
    assert podAvg.Keys - rest == podAvg.Keys;
  }

  ghost predicate QuietIn(means: map<string, real>, threshold: real, deployment: string) {
    PodsOf(means.Keys, deployment) != {} && MeanOfMeans(means, deployment) < threshold
  }

  /** Idle, spelled out: some pod stands for the Deployment, and the mean over its pods of the means of their samples
      is below the threshold. */
  lemma IsIdleMeans(samples: seq<Sample>, threshold: real, deployment: string)
    ensures var pods := set pod | pod in Pods(samples) && PodToDeployment(pod) == deployment;
            IsIdle(samples, threshold, deployment)
            <==> pods != {} && TotalOver(pods, PodMeans(samples)) / |pods| as real < threshold
    ensures forall pod :: pod in Pods(samples) ==>
              var values := PodValues(samples, pod);
              values != [] && PodMeans(samples)[pod] == Sum(values) / |values| as real
  {
    assert PodMeans(samples).Keys == Pods(samples);
    forall pod | pod in Pods(samples) ensures PodValues(samples, pod) != [] {
      PodHasValues(samples, pod);
    }
  }

  /** Its second loop: over the Deployments, in any order. */
  method BelowThreshold(depSums: map<string, real>, depCounts: map<string, nat>, ghost podAvg: map<string, real>,
                        namespace: string, threshold: real, start: real)
    returns (idleList: seq<IdleWorkload>)
    requires Summed(depSums, depCounts, podAvg, podAvg.Keys)
    ensures DistinctNames(idleList) && AllAt(idleList, namespace, start)
    ensures forall name :: Names(idleList, name) <==> QuietIn(podAvg, threshold, name)
  {
    idleList := [];
    var deps := depSums.Keys;
    while deps != {}
      invariant deps <= depSums.Keys
      invariant DistinctNames(idleList) && AllAt(idleList, namespace, start)
      invariant forall name ::
                  Names(idleList, name) <==> name in depSums && name !in deps && QuietIn(podAvg, threshold, name)
      decreases deps
    {
      var dep :| dep in deps;
      assert SummedAt(depSums, depCounts, podAvg, podAvg.Keys, dep);
      var avg := depSums[dep] / depCounts[dep] as real;
      assert avg == MeanOfMeans(podAvg, dep);
      if avg < threshold {
        idleList := Appended(idleList, IdleWorkload(dep, namespace, start));
      }
      deps := deps - {dep};
    }
    forall name | QuietIn(podAvg, threshold, name) ensures name in depSums {
      assert SummedAt(depSums, depCounts, podAvg, podAvg.Keys, name);
    }
  }

  /** Its last loop: keeps the workloads whose Deployment can be fetched. */
  method Verified(idleList: seq<IdleWorkload>, fetchable: set<string>, ghost namespace: string, ghost start: real)
    returns (verified: seq<IdleWorkload>)
    requires DistinctNames(idleList) && AllAt(idleList, namespace, start)
    ensures DistinctNames(verified) && AllAt(verified, namespace, start)
    ensures forall name :: Names(verified, name) <==> Names(idleList, name) && name in fetchable
  {
    verified := [];
    for i := 0 to |idleList|
      invariant DistinctNames(verified) && AllAt(verified, namespace, start)
      invariant forall name :: Names(verified, name) <==> Names(idleList[..i], name) && name in fetchable
    {
      var w := idleList[i];
      assert idleList[..i + 1] == idleList[..i] + [w];
      NamesAppend(idleList[..i], w);
      assert !Names(idleList[..i], w.name);
      if w.name !in fetchable {
        continue;
      }
      verified := Appended(verified, w);
    }
    assert idleList[..|idleList|] == idleList;
  }

  /** A name is detected exactly once if some pod stands for it, the mean of its pods' means is below the threshold
      and its Deployment can be fetched; otherwise not at all. Maps are walked in any order. */
  method DetectIdle(samples: seq<Sample>, namespace: string, threshold: real, start: real, fetchable: set<string>)
    returns (verified: seq<IdleWorkload>)
    ensures DistinctNames(verified) && AllAt(verified, namespace, start)
    ensures forall name :: Names(verified, name) <==> IsIdle(samples, threshold, name) && name in fetchable
  {
    var podAvg := AverageByPod(samples);
    var depSums, depCounts := SumByDeployment(podAvg);
    var idleList := BelowThreshold(depSums, depCounts, podAvg, namespace, threshold, start);
    verified := Verified(idleList, fetchable, namespace, start);
  }

  lemma NamesAppend(workloads: seq<IdleWorkload>, w: IdleWorkload)
    ensures forall name :: Names(workloads + [w], name) <==> Names(workloads, name) || name == w.name
  {
    var all := workloads + [w];
    assert all[|workloads|] == w;
    assert forall i :: 0 <= i < |workloads| ==> all[i] == workloads[i];
  }

  method Appended(workloads: seq<IdleWorkload>, w: IdleWorkload) returns (all: seq<IdleWorkload>)
    requires DistinctNames(workloads) && !Names(workloads, w.name)
    ensures all == workloads + [w] && DistinctNames(all)
    ensures forall name :: Names(all, name) <==> Names(workloads, name) || name == w.name
  {
    NamesAppend(workloads, w);
    all := workloads + [w];
  }

  // ------------------------------------------------------------------ the order of the samples

  lemma {:induction false} PodValuesCount(samples: seq<Sample>, pod: string, value: real)
    ensures multiset(PodValues(samples, pod))[value] == multiset(samples)[Sample(pod, value)]
  {
    if samples != [] {
      PodValuesCount(samples[1..], pod, value);
      assert samples == [samples[0]] + samples[1..];
      var head := if samples[0].pod == pod then [samples[0].value] else [];
      assert multiset(PodValues(samples, pod)) == multiset(head) + multiset(PodValues(samples[1..], pod));
      assert multiset(samples) == multiset{samples[0]} + multiset(samples[1..]);
      assert samples[0] == Sample(samples[0].pod, samples[0].value);
    }
  }

  lemma PodMeanPermutation(samples: seq<Sample>, samples': seq<Sample>, pod: string)
    requires multiset(samples) == multiset(samples')
    ensures PodMean(samples, pod) == PodMean(samples', pod)
    ensures PodValues(samples, pod) == [] <==> PodValues(samples', pod) == []
  {
    var a, b := PodValues(samples, pod), PodValues(samples', pod);
    forall value ensures multiset(a)[value] == multiset(b)[value] {
      PodValuesCount(samples, pod, value);
      PodValuesCount(samples', pod, value);
    }
    assert multiset(a) == multiset(b);
    assert |a| == |multiset(a)| == |multiset(b)| == |b|;
    SumPermutation(a, b);
  }

  /** Detection does not depend on the order in which the samples arrive. */
  lemma IdlePermutation(samples: seq<Sample>, samples': seq<Sample>, threshold: real, deployment: string)
    requires multiset(samples) == multiset(samples')
    ensures IsIdle(samples, threshold, deployment) <==> IsIdle(samples', threshold, deployment)
  {
    forall pod ensures pod in Pods(samples) <==> pod in Pods(samples') {
      PodHasValues(samples, pod);
      PodHasValues(samples', pod);
      PodMeanPermutation(samples, samples', pod);
    }
    forall pod ensures PodMean(samples, pod) == PodMean(samples', pod) {
      PodMeanPermutation(samples, samples', pod);
    }
    assert PodMeans(samples) == PodMeans(samples');
  }

  // ------------------------------------------------------------------ mean of means and flat mean

  lemma {:induction false} TotalOverRaise(pods: set<string>, a: map<string, real>, b: map<string, real>, pod: string,
                                          more: real)
    requires pods <= a.Keys && pods <= b.Keys
    requires forall p :: p in pods ==> b[p] == a[p] + if p == pod then more else 0.0
    ensures TotalOver(pods, b) == TotalOver(pods, a) + if pod in pods then more else 0.0
    decreases pods
  {
    if pods != {} {
      var p :| p in pods;
      TotalOverPick(pods, a, p);
      TotalOverPick(pods, b, p);
      TotalOverRaise(pods - {p}, a, b, pod, more);
    }
  }

  function PodSums(samples: seq<Sample>, pods: set<string>): map<string, real> {
    map pod | pod in pods :: Sum(PodValues(samples, pod))
  }

  function PodCounts(samples: seq<Sample>, pods: set<string>): map<string, real> {
    map pod | pod in pods :: |PodValues(samples, pod)| as real
  }

  lemma PodSumStep(samples: seq<Sample>, pod: string)
    requires samples != []
    ensures var here := samples[0].pod == pod;
            && Sum(PodValues(samples, pod))
                == Sum(PodValues(samples[1..], pod)) + (if here then samples[0].value else 0.0)
            && |PodValues(samples, pod)| == |PodValues(samples[1..], pod)| + (if here then 1 else 0)
  {
    var rest := PodValues(samples[1..], pod);
    assert ([samples[0].value] + rest)[1..] == rest;
  }

  /** The values of all samples of the given pods, in order. */
  function ValuesIn(samples: seq<Sample>, pods: set<string>): seq<real> {
    if samples == [] then []
    else if samples[0].pod in pods then [samples[0].value] + ValuesIn(samples[1..], pods)
    else ValuesIn(samples[1..], pods)
  }

  lemma {:induction false} FlatValues(samples: seq<Sample>, deployment: string, pods: set<string>)
    requires forall i :: 0 <= i < |samples| ==>
        (PodToDeployment(samples[i].pod) == deployment <==> samples[i].pod in pods)
    ensures PodValues(ByDeployment(samples), deployment) == ValuesIn(samples, pods)
  {
    if samples != [] {
      FlatValues(samples[1..], deployment, pods);
    }
  }

  /** The sum of the pods' values is the total of the pods' sums, */
  lemma {:induction false} FlatSum(samples: seq<Sample>, pods: set<string>)
    ensures Sum(ValuesIn(samples, pods)) == TotalOver(pods, PodSums(samples, pods))
  {
    if samples == [] {
      TotalOverConstant(pods, PodSums(samples, pods), 0.0);
    } else {
      var s, rest := samples[0], samples[1..];
      FlatSum(rest, pods);
      forall pod
        ensures Sum(PodValues(samples, pod)) == Sum(PodValues(rest, pod)) + (if s.pod == pod then s.value else 0.0)
      {
        PodSumStep(samples, pod);
      }
      TotalOverRaise(pods, PodSums(rest, pods), PodSums(samples, pods), s.pod, s.value);
    }
  }

  /** and so is their number. */
  lemma {:induction false} FlatCount(samples: seq<Sample>, pods: set<string>)
    ensures |ValuesIn(samples, pods)| as real == TotalOver(pods, PodCounts(samples, pods))
  {
    if samples == [] {
      TotalOverConstant(pods, PodCounts(samples, pods), 0.0);
    } else {
      var s, rest := samples[0], samples[1..];
      FlatCount(rest, pods);
      forall pod ensures |PodValues(samples, pod)| == |PodValues(rest, pod)| + (if s.pod == pod then 1 else 0) {
        PodSumStep(samples, pod);
      }
      TotalOverRaise(pods, PodCounts(rest, pods), PodCounts(samples, pods), s.pod, 1.0);
    }
  }

  lemma {:induction false} TotalOverConstant(pods: set<string>, values: map<string, real>, k: real)
    requires pods <= values.Keys && forall p :: p in pods ==> values[p] == k
    ensures TotalOver(pods, values) == k * |pods| as real
    decreases pods
  {
    if pods != {} {
      var p :| p in pods;
      TotalOverPick(pods, values, p);
      TotalOverConstant(pods - {p}, values, k);
      assert |pods| == |pods - {p}| + 1;
    }
  }

  lemma PodsCovered(samples: seq<Sample>, deployment: string, i: nat)
    requires i < |samples|
    ensures PodToDeployment(samples[i].pod) == deployment <==> samples[i].pod in PodsOf(Pods(samples), deployment)
  {
    assert samples[i].pod in Pods(samples);
  }

  lemma EqualFlat(samples: seq<Sample>, deployment: string, pods: set<string>)
    requires pods == PodsOf(Pods(samples), deployment)
    ensures PodValues(ByDeployment(samples), deployment) == ValuesIn(samples, pods)
  {
    forall i | 0 <= i < |samples| ensures PodToDeployment(samples[i].pod) == deployment <==> samples[i].pod in pods {
      PodsCovered(samples, deployment, i);
    }
    FlatValues(samples, deployment, pods);
  }

  lemma EqualCounts(samples: seq<Sample>, pods: set<string>, k: nat)
    requires forall pod :: pod in pods ==> |PodValues(samples, pod)| == k
    ensures Sum(ValuesIn(samples, pods)) == TotalOver(pods, PodSums(samples, pods))
    ensures |ValuesIn(samples, pods)| as real == k as real * |pods| as real
  {
    FlatSum(samples, pods);
    FlatCount(samples, pods);
    TotalOverConstant(pods, PodCounts(samples, pods), k as real);
  }

  lemma EqualMeans(samples: seq<Sample>, pods: set<string>, k: nat)
    requires pods <= Pods(samples) && k > 0
    requires forall pod :: pod in pods ==> |PodValues(samples, pod)| == k
    ensures TotalOver(pods, PodMeans(samples)) == TotalOver(pods, PodSums(samples, pods)) / k as real
  {
    var sums, means := PodSums(samples, pods), PodMeans(samples);
    forall pod | pod in pods ensures means[pod] == sums[pod] / k as real {
      assert means[pod] == PodMean(samples, pod);
    }
    TotalOverDivide(pods, sums, means, k as real);
  }

  lemma EqualQuotients(means: map<string, real>, pods: set<string>, flat: seq<real>, k: nat, total: real)
    requires pods != {} && pods <= means.Keys && k > 0
    requires Sum(flat) == total && |flat| as real == k as real * |pods| as real
    requires TotalOver(pods, means) == total / k as real
    ensures flat != [] && TotalOver(pods, means) / |pods| as real == Mean(flat)
  {
    DivideTwice(total, k as real, |pods| as real, |flat| as real);
  }

  /** When a Deployment's pods have equally many samples, the mean of means that detection uses
      is the flat mean that the report uses. */
  lemma MeansAgree(samples: seq<Sample>, deployment: string, k: nat)
    requires PodsOf(Pods(samples), deployment) != {}
    requires forall pod :: pod in PodsOf(Pods(samples), deployment) ==> |PodValues(samples, pod)| == k
    ensures MeanOfMeans(PodMeans(samples), deployment) == PodMean(ByDeployment(samples), deployment)
  {
    var pods := PodsOf(Pods(samples), deployment);
    var some :| some in pods;
    assert k > 0 by { PodHasValues(samples, some); }
    EqualMean(samples, deployment, pods, k);
    MeanOfMeansIs(PodMeans(samples), deployment, pods);
  }

  lemma MeanOfMeansIs(means: map<string, real>, deployment: string, pods: set<string>)
    requires pods == PodsOf(means.Keys, deployment) != {}
    ensures MeanOfMeans(means, deployment) == TotalOver(pods, means) / |pods| as real
  {
  }

  lemma EqualMean(samples: seq<Sample>, deployment: string, pods: set<string>, k: nat)
    requires pods == PodsOf(Pods(samples), deployment) != {} && k > 0
    requires forall pod :: pod in pods ==> |PodValues(samples, pod)| == k
    ensures PodMean(ByDeployment(samples), deployment) == TotalOver(pods, PodMeans(samples)) / |pods| as real
  {
    var flat, means, total := ValuesIn(samples, pods), PodMeans(samples), TotalOver(pods, PodSums(samples, pods));
    EqualCounts(samples, pods, k);
    EqualMeans(samples, pods, k);
    EqualQuotients(means, pods, flat, k, total);
    EqualFlat(samples, deployment, pods);
  }

  lemma DivideSum(x: real, y: real, k: real)
    requires k > 0.0
    ensures (x + y) / k == x / k + y / k
  {
  }

  lemma {:induction false} TotalOverDivide(pods: set<string>, a: map<string, real>, b: map<string, real>, k: real)
    requires pods <= a.Keys && pods <= b.Keys && k > 0.0
    requires forall p :: p in pods ==> b[p] == a[p] / k
    ensures TotalOver(pods, b) == TotalOver(pods, a) / k
    decreases pods
  {
    if pods == {} {
      assert 0.0 / k == 0.0;
    } else {
      var p :| p in pods;
      TotalOverPick(pods, a, p);
      TotalOverPick(pods, b, p);
      TotalOverDivide(pods - {p}, a, b, k);
      DivideSum(a[p], TotalOver(pods - {p}, a), k);
    }
  }

  lemma DivideTwice(x: real, k: real, n: real, kn: real)
    requires k > 0.0 && n > 0.0 && kn == k * n
    ensures kn > 0.0 && x / k / n == x / kn
  {
    var q := x / k / n;
    assert q * n * k == x;
    assert q * kn == x;
  }
}
