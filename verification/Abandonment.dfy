/** Which runner Services the periodic clean-up takes for abandoned. */
module Abandonment {
  import opened Options
  import opened Names
  import opened Desired
  import opened Plans
  import opened Convergence

  /** A running pod. */
  datatype Pod = Pod(namespace: string, labels: Labels)

  /** A Service with the runner label. */
  predicate Listed(store: Store, key: Key, runnerKey: string)
    requires key in store
  {
    key.kind == ServiceKind && store[key].ServiceObj? && Custom(runnerKey) in store[key].labels
  }

  predicate Backs(store: Store, key: Key, pod: Pod)
    requires key in store
  {
    pod.namespace == key.namespace && store[key].ServiceObj? && Selects(store[key].selector, pod.labels)
  }

  /** A Service with the runner label that is old enough and has no pods behind it. */
  predicate Abandoned(store: Store, key: Key, pods: set<Pod>, aged: set<Key>, runnerKey: string) {
    && key in store && Listed(store, key, runnerKey) && key in aged
    && forall pod :: pod in pods ==> !Backs(store, key, pod)
  }

  /** `after` is `before` without some abandoned Services of the given namespaces. */
  ghost predicate Pruned(
    before: Store, after: Store, namespaces: set<string>, pods: set<Pod>, aged: set<Key>, runnerKey: string)
  {
    && (forall key :: key in after ==> key in before && after[key] == before[key])
    && (forall key :: key in before && key !in after ==>
        Abandoned(before, key, pods, aged, runnerKey) && key.namespace in namespaces)
  }

  /** None of the Services that were abandoned is left in the given namespaces. */
  ghost predicate Clean(
    before: Store, after: Store, namespaces: set<string>, pods: set<Pod>, aged: set<Key>, runnerKey: string)
  {
    forall key :: key in after && key.namespace in namespaces ==> !Abandoned(before, key, pods, aged, runnerKey)
  }

  ghost predicate CleanBut(
    before: Store, after: Store, todo: set<Key>, namespace: string, pods: set<Pod>, aged: set<Key>, runnerKey: string)
  {
    forall key :: key in after && key.namespace == namespace && key !in todo ==>
        !Abandoned(before, key, pods, aged, runnerKey)
  }

  function Elements(names: seq<string>): set<string> { set n | n in names }

  lemma NothingPruned(store: Store, namespaces: set<string>, pods: set<Pod>, aged: set<Key>, runnerKey: string)
    ensures Pruned(store, store, namespaces, pods, aged, runnerKey)
    ensures Clean(store, store, {}, pods, aged, runnerKey)
  {
    hide Abandoned;
  }

  lemma OthersClean(store: Store, todo: set<Key>, namespace: string, pods: set<Pod>, aged: set<Key>, runnerKey: string)
    requires forall key :: key in store && key.namespace == namespace && Listed(store, key, runnerKey) ==> key in todo
    ensures CleanBut(store, store, todo, namespace, pods, aged, runnerKey)
  {
    hide Listed;
  }

  lemma IsAbandoned(
      before: Store, after: Store, key: Key, namespace: string, pods: set<Pod>, aged: set<Key>, runnerKey: string)
    requires Pruned(before, after, {namespace}, pods, aged, runnerKey)
    requires key in before && key in after && Listed(before, key, runnerKey)
    ensures Abandoned(before, key, pods, aged, runnerKey) <==>
        key in aged && !exists pod :: pod in pods && Backs(after, key, pod)
  {
    hide Selects, Listed;
  }

  lemma MorePruned(
      start: Store, before: Store, after: Store, key: Key, namespace: string,
      pods: set<Pod>, aged: set<Key>, runnerKey: string)
    requires Pruned(start, before, {namespace}, pods, aged, runnerKey)
    requires key in before && Abandoned(start, key, pods, aged, runnerKey) && key.namespace == namespace
    requires after == before || after == before - {key}
    ensures Pruned(start, after, {namespace}, pods, aged, runnerKey)
  {
    hide Abandoned;
  }

  lemma NextKey(
      start: Store, before: Store, after: Store, todo: set<Key>, key: Key, namespace: string,
      pods: set<Pod>, aged: set<Key>, runnerKey: string)
    requires CleanBut(start, before, todo + {key}, namespace, pods, aged, runnerKey)
    requires after == before - {key} || (after == before && !Abandoned(start, key, pods, aged, runnerKey))
    ensures CleanBut(start, after, todo, namespace, pods, aged, runnerKey)
  {
    hide Abandoned;
  }

  lemma AllClean(before: Store, after: Store, namespace: string, pods: set<Pod>, aged: set<Key>, runnerKey: string)
    requires CleanBut(before, after, {}, namespace, pods, aged, runnerKey)
    ensures Clean(before, after, {namespace}, pods, aged, runnerKey)
  {
    hide Abandoned;
  }

  /** What is left is abandoned or not as it was. */
  lemma SameAbandoned(before: Store, after: Store, key: Key, pods: set<Pod>, aged: set<Key>, runnerKey: string)
    requires key in before && key in after && before[key] == after[key]
    ensures Abandoned(before, key, pods, aged, runnerKey) <==> Abandoned(after, key, pods, aged, runnerKey)
  {
    hide Selects;
  }

  lemma PrunedTwice(
      start: Store, before: Store, after: Store, namespaces: set<string>, namespace: string,
      pods: set<Pod>, aged: set<Key>, runnerKey: string)
    requires Pruned(start, before, namespaces, pods, aged, runnerKey) && namespace in namespaces
    requires Pruned(before, after, {namespace}, pods, aged, runnerKey)
    ensures Pruned(start, after, namespaces, pods, aged, runnerKey)
  {
    hide Abandoned;
    forall key | key in start && key !in after
      ensures Abandoned(start, key, pods, aged, runnerKey) && key.namespace in namespaces
    {
      if key in before { SameAbandoned(start, before, key, pods, aged, runnerKey); }
    }
  }

  lemma CleanTwice(
      start: Store, before: Store, after: Store, all: set<string>, namespaces: set<string>, namespace: string,
      pods: set<Pod>, aged: set<Key>, runnerKey: string)
    requires Pruned(start, before, all, pods, aged, runnerKey)
    requires Clean(start, before, namespaces, pods, aged, runnerKey)
    requires Pruned(before, after, {namespace}, pods, aged, runnerKey)
    requires Clean(before, after, {namespace}, pods, aged, runnerKey)
    ensures Clean(start, after, namespaces + {namespace}, pods, aged, runnerKey)
  {
    hide Abandoned;
    forall key | key in after && key.namespace in namespaces + {namespace}
      ensures !Abandoned(start, key, pods, aged, runnerKey)
    {
      assert key in before;
      SameAbandoned(start, before, key, pods, aged, runnerKey);
    }
  }

  /** A complete clean-up deletes the Services of the namespaces that have the runner label, are old enough
      and match no pod of their namespace, and nothing else. */
  lemma CleanUpSpelled(
      before: Store, after: Store, namespaces: set<string>, pods: set<Pod>, aged: set<Key>, runnerKey: string, key: Key)
    requires Pruned(before, after, namespaces, pods, aged, runnerKey)
    requires Clean(before, after, namespaces, pods, aged, runnerKey)
    ensures key in after <==>
              && key in before
              && !(&& key.kind == ServiceKind && key.namespace in namespaces && key in aged
                   && before[key].ServiceObj? && Custom(runnerKey) in before[key].labels
                   && forall pod :: pod in pods && pod.namespace == key.namespace ==>
                        exists k :: k in before[key].selector
                          && !(k in pod.labels && pod.labels[k] == before[key].selector[k]))
    ensures key in after ==> after[key] == before[key]
  {}

  // ---------------------------------------------------------------- reconciled Services are safe

  /** A generated Service has the runner label only if the user put it there. */
  lemma GeneratedNotListed(i: Input, r: Option<string>, v: Variant, store: Store, key: Key, runnerKey: string)
    requires Custom(runnerKey) !in ExtraLabels(i.d, r)
    requires key in store && store[key] == MakeService(i, r, v)
    ensures !Listed(store, key, runnerKey)
  {
    hide ExtraLabels, ServiceSelector;
  }

  /** After a complete reconcile the clean-up leaves all of its objects alone, as long as no user label has
      the runner key: the labels the operator itself gives a Service do not include it. */
  lemma CleanUpKeepsConverged(
      i: Input, before: Store, store: Store, after: Store, namespaces: set<string>,
      pods: set<Pod>, aged: set<Key>, runnerKey: string)
    requires NamesOk(i) && Converged(i, before, store) && Pruned(store, after, namespaces, pods, aged, runnerKey)
    requires forall r :: Known(i.b, r) ==> Custom(runnerKey) !in ExtraLabels(i.d, r)
    ensures Converged(i, before, after)
  {
    hide Roles, NamesOk, KeyOf, MakeService, MakeDeployment, MakeHpa, MakeIngress, ProxyRoutes, WantsDebug, Selects,
        KeepHost, ExtraLabels, Known;
    forall role | role in Roles(i) ensures Settled(before, after, StepFor(i, role)) {
      assert Settled(before, store, StepFor(i, role));
      RolesExact(i, role);
      StepKey(i, role);
      var key := KeyOf(i, role);
      if key in store && key !in after {
        OnlyServicesListed(i, role, store, runnerKey);
        var r, v := role.runner, role.v;
        assert Known(i.b, r);
        GeneratedNotListed(i, r, v, store, key, runnerKey);
      }
    }
  }

  lemma OnlyServicesListed(i: Input, role: Role, store: Store, runnerKey: string)
    requires KeyOf(i, role) in store && Listed(store, KeyOf(i, role), runnerKey)
    ensures role.Svc?
  {
    hide KubeName, ServiceName, ConfigName;
  }
}
