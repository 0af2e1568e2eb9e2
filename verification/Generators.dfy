/** The loops that compute names, labels, selectors and annotations. */
module Generators {
  import opened Options
  import opened Names
  import opened Desired

  // ---------------------------------------------------------------- searches

  lemma FirstIndexPrefix(names: seq<string>, name: string, n: nat)
    requires n <= |names| && forall k :: 0 <= k < n ==> names[k] != name
    ensures n < |names| && names[n] == name ==> FirstIndex(names, name) == Some(n)
    ensures n == |names| ==> FirstIndex(names, name) == None
    decreases n
  {
    if n > 0 { FirstIndexPrefix(names[1..], name, n - 1); }
  }

  method GetKubeName(name: string, b: Bento, runner: Option<string>, debug: bool) returns (kubeName: string)
    ensures kubeName == KubeName(name, b, runner, debug)
  {
    if runner.Some? {
      for idx := 0 to |b.runners|
        invariant forall k :: 0 <= k < idx ==> b.runners[k] != runner.value
      {
        FirstIndexPrefix(b.runners, runner.value, idx);
        if b.runners[idx] == runner.value {
          if debug { return name + ("-runner-d-" + Decimal(idx)); }
          return name + ("-runner-" + Decimal(idx));
        }
      }
      FirstIndexPrefix(b.runners, runner.value, |b.runners|);
    }
    if debug { return name + "-d"; }
    return name + "";
  }

  lemma FindRunnerPrefix(rs: seq<RunnerSpec>, name: string, n: nat)
    requires n <= |rs| && forall k :: 0 <= k < n ==> rs[k].name != name
    ensures n < |rs| && rs[n].name == name ==> FindRunner(rs, name) == Some(rs[n])
    ensures n == |rs| ==> FindRunner(rs, name) == None
    decreases n
  {
    if n > 0 { FindRunnerPrefix(rs[1..], name, n - 1); }
  }

  method GetResourceAnnotations(d: Deployment, runner: Option<string>) returns (annotations: map<string, string>)
    ensures annotations == ResourceAnnotations(d, runner)
  {
    if runner.None? { return d.annotations; }
    annotations := map[];
    for n := 0 to |d.runners|
      invariant forall k :: 0 <= k < n ==> d.runners[k].name != runner.value
      invariant annotations == map[]
    {
      FindRunnerPrefix(d.runners, runner.value, n);
      if d.runners[n].name == runner.value { return d.runners[n].annotations; }
    }
    FindRunnerPrefix(d.runners, runner.value, |d.runners|);
  }

  method CheckIfContainsStealing(d: Deployment) returns (found: bool)
    ensures found == ContainsStealing(d)
    ensures found <==>
              || IsTrue(d.annotations, "yatai.ai/enable-stealing-traffic-debug-mode")
              || exists spec :: spec in d.runners
                   && IsTrue(spec.annotations, "yatai.ai/enable-stealing-traffic-debug-mode")
  {
    if HasTrue(d.annotations, STEALING) { return true; }
    for n := 0 to |d.runners|
      invariant forall k :: 0 <= k < n ==> !HasTrue(d.runners[k].annotations, STEALING)
    {
      if HasTrue(d.runners[n].annotations, STEALING) {
        assert d.runners[n] in d.runners;
        return true;
      }
    }
    return false;
  }

  predicate IsTrue(annotations: map<string, string>, key: string) { key in annotations && annotations[key] == "true" }

  // ---------------------------------------------------------------- labels

  function Part(labels: Labels, keys: set<Label>): Labels { map k | k in keys && k in labels :: labels[k] }

  lemma PartStep(result: Labels, extra: Labels, todo: set<Label>, k: Label)
    requires k in todo && k in extra
    ensures result + Part(extra, todo) == result[k := extra[k]] + Part(extra, todo - {k})
  {}

  /** Write every entry of `extra` over `labels`. */
  method Overwrite(labels: Labels, extra: Labels) returns (result: Labels)
    ensures result == labels + extra
  {
    hide Part;
    result := labels;
    var todo := extra.Keys;
    WholePart(extra);
    while todo != {}
      invariant todo <= extra.Keys && result + Part(extra, todo) == labels + extra
      decreases |todo|
    {
      var k :| k in todo;
      PartStep(result, extra, todo, k);
      todo := todo - {k};
      result := result[k := extra[k]];
    }
    assert Part(extra, {}) == map[] by { NoPart(extra); }
    assert result + map[] == result;
  }

  lemma WholePart(labels: Labels)
    ensures Part(labels, labels.Keys) == labels
  {}

  lemma NoPart(labels: Labels)
    ensures Part(labels, {}) == map[]
  {}

  method GetKubeLabels(d: Deployment, b: Bento, runner: Option<string>) returns (labels: Labels)
    ensures labels == KubeLabels(d, b, runner)
  {
    labels := map[
      Owner := d.name, Repository := b.repository, Version := b.version, TargetType := PRODUCTION,
      Creator := "yatai-deployment"];
    if runner.Some? {
      labels := labels[ComponentType := RUNNER];
      labels := labels[ComponentName := runner.value];
    } else {
      labels := labels[ComponentType := API_SERVER];
    }
    var extra := d.labels;
    if runner.Some? {
      var n := 0;
      while n < |d.runners| && d.runners[n].name != runner.value
        invariant 0 <= n <= |d.runners| && forall k :: 0 <= k < n ==> d.runners[k].name != runner.value
      {
        n := n + 1;
      }
      FindRunnerPrefix(d.runners, runner.value, n);
      if n < |d.runners| { extra := d.runners[n].labels; }
    }
    labels := Overwrite(labels, extra);
  }

  /** The labels of a pod: those of its component, marked as a debug pod's or not, its Deployment's
      selector label, and the user's extra pod labels over everything. */
  method GeneratePodLabels(d: Deployment, b: Bento, runner: Option<string>, debug: bool) returns (labels: Labels)
    ensures labels == PodLabels(d, b, runner, debug)
  {
    hide KubeLabels, KubeName, FindRunner;
    labels := GetKubeLabels(d, b, runner);
    if runner.Some? {
      labels := labels[Repository := b.repository];
      labels := labels[Version := b.version];
    }
    if debug { labels := labels[TargetType := DEBUG]; }
    var kubeName := GetKubeName(d.name, b, runner, debug);
    labels := labels[Selector := kubeName];
    var extra := d.podLabels;
    if runner.Some? {
      var n := 0;
      while n < |d.runners| && d.runners[n].name != runner.value
        invariant 0 <= n <= |d.runners| && forall k :: 0 <= k < n ==> d.runners[k].name != runner.value
      {
        n := n + 1;
      }
      FindRunnerPrefix(d.runners, runner.value, n);
      if n < |d.runners| { extra := d.runners[n].podLabels; }
    }
    if extra.Some? {
      labels := Overwrite(labels, extra.value);
    } else {
      assert labels + map[] == labels;
    }
  }

  method GenerateSelector(d: Deployment, b: Bento, runner: Option<string>, v: Variant) returns (selector: Labels)
    ensures selector == ServiceSelector(d, b, runner, v)
  {
    hide KubeLabels, ResourceAnnotations, HasTrue;
    var labels := GetKubeLabels(d, b, runner);
    selector := Overwrite(map[], labels);
    assert map[] + labels == labels;
    if v.Debug? { selector := selector[TargetType := DEBUG]; }
    var annotations := GetResourceAnnotations(d, runner);
    if runner.None? {
      if v.Generic? { selector := selector - {TargetType}; }
    } else {
      if v.Generic? && HasTrue(annotations, RECEIVE_PRODUCTION) { selector := selector - {TargetType}; }
    }
  }

  /** The Services the API server reaches its runners by, one for each runner of the Bento. */
  method GenerateRunnerServices(i: Input, debug: bool) returns (services: seq<string>)
    ensures services == RunnerServices(i, debug)
  {
    hide ServiceName;
    services := [];
    for n := 0 to |i.b.runners|
      invariant |services| == n && forall k :: 0 <= k < n ==> services[k] == RunnerReference(i, i.b.runners[k], debug)
    {
      var runner := i.b.runners[n];
      var annotations := GetResourceAnnotations(i.d, Some(runner));
      var stealing := HasTrue(annotations, STEALING);
      var service;
      if debug {
        service := ServiceName(i.d.name, i.hash, i.b, Some(runner), if stealing then Variant.Debug else Production);
      } else {
        service := ServiceName(i.d.name, i.hash, i.b, Some(runner), Generic);
      }
      services := services + [service];
    }
  }
}
