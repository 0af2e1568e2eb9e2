/** A reconcile as a sequence of steps on the cluster, each of which settles one object. */
module Plans {
  import opened Options
  import opened Names
  import opened Desired

  datatype Kind = DeploymentKind | ServiceKind | HpaKind | IngressKind | ConfigMapKind

  datatype Key = Key(kind: Kind, namespace: string, name: string)

  /** What the cluster holds of the objects' generated parts. */
  type Store = map<Key, Object>

  datatype Step =
    | Apply(key: Key, obj: Object)         // create, or update when different
    | Remove(key: Key)                     // delete when present
    | ApplyIngress(key: Key, obj: Object)  // as Apply, but an existing host stays

  // ---------------------------------------------------------------- runs

  /** The object an `ApplyIngress` leaves, given what was there. */
  function KeepHost(store: Store, key: Key, obj: Object): Object {
    if key in store && store[key].IngressObj? && obj.IngressObj? then obj.(host := store[key].host) else obj
  }

  function Effect(store: Store, step: Step): Store {
    match step
    case Apply(key, obj) => store[key := obj]
    case Remove(key) => store - {key}
    case ApplyIngress(key, obj) => store[key := KeepHost(store, key, obj)]
  }

  function Run(store: Store, steps: seq<Step>): Store {
    if steps == [] then store else Effect(Run(store, steps[..|steps| - 1]), steps[|steps| - 1])
  }

  lemma RunMore(store: Store, steps: seq<Step>, step: Step)
    ensures Run(store, steps + [step]) == Effect(Run(store, steps), step)
  {
    assert (steps + [step])[..|steps|] == steps;
  }

  lemma {:induction false} RunConcat(store: Store, a: seq<Step>, b: seq<Step>)
    ensures Run(store, a + b) == Run(Run(store, a), b)
    decreases |b|
  {
    if b == [] {
      assert a + b == a;
    } else {
      var init, last := b[..|b| - 1], b[|b| - 1];
      RunConcat(store, a, init);
      assert a + b == (a + init) + [last];
      RunMore(store, a + init, last);
    }
  }

  /** `step` is settled in `store`; `before` is the store the run started from. */
  predicate Settled(before: Store, store: Store, step: Step) {
    match step
    case Apply(key, obj) => key in store && store[key] == obj
    case Remove(key) => key !in store
    case ApplyIngress(key, obj) => key in store && store[key] == KeepHost(before, key, obj)
  }

  /** No step undoes another: two steps on the same object are the same step. */
  predicate Consistent(steps: seq<Step>) {
    forall i, j :: 0 <= i < |steps| && 0 <= j < |steps| && steps[i].key == steps[j].key ==> steps[i] == steps[j]
  }

  predicate Touches(steps: seq<Step>, key: Key) { exists i :: 0 <= i < |steps| && steps[i].key == key }

  lemma {:induction false} RunFrame(store: Store, steps: seq<Step>, key: Key)
    requires !Touches(steps, key)
    ensures key in Run(store, steps) <==> key in store
    ensures key in store ==> Run(store, steps)[key] == store[key]
    decreases |steps|
  {
    if steps != [] {
      var init, last := steps[..|steps| - 1], steps[|steps| - 1];
      assert forall i :: 0 <= i < |init| ==> init[i].key == steps[i].key;
      RunFrame(store, init, key);
      assert steps[|steps| - 1].key != key;
    }
  }

  /** Doing a settled step again changes nothing. */
  lemma SettledIsFixed(before: Store, store: Store, step: Step)
    requires Settled(before, store, step)
    ensures Effect(store, step) == store
  {}

  lemma {:induction false} RunSettles(store: Store, steps: seq<Step>)
    requires Consistent(steps)
    ensures forall i :: 0 <= i < |steps| ==> Settled(store, Run(store, steps), steps[i])
    decreases |steps|
  {
    if steps != [] {
      var init, last := steps[..|steps| - 1], steps[|steps| - 1];
      var mid := Run(store, init);
      assert Consistent(init) by {
        forall i, j | 0 <= i < |init| && 0 <= j < |init| && init[i].key == init[j].key ensures init[i] == init[j] {
          assert steps[i] == init[i] && steps[j] == init[j];
        }
      }
      RunSettles(store, init);
      if Touches(init, last.key) {
        var i :| 0 <= i < |init| && init[i].key == last.key;
        assert steps[i] == init[i] && steps[|steps| - 1] == last;
        SettledIsFixed(store, mid, last);
      } else {
        RunFrame(store, init, last.key);
      }
      forall i | 0 <= i < |steps| ensures Settled(store, Run(store, steps), steps[i]) {
        if i < |init| { assert init[i] == steps[i] && Settled(store, mid, init[i]); }
      }
    }
  }

  /** Steps that are all settled leave the store alone, one by one. */
  lemma {:induction false} RunFixed(before: Store, store: Store, steps: seq<Step>)
    requires forall i :: 0 <= i < |steps| ==> Settled(before, store, steps[i])
    ensures Run(store, steps) == store
    decreases |steps|
  {
    if steps != [] {
      RunFixed(before, store, steps[..|steps| - 1]);
      SettledIsFixed(before, store, steps[|steps| - 1]);
    }
  }

  // ---------------------------------------------------------------- the plan of a reconcile

  /** What a step is for; `None` is the API server. */
  datatype Role =
    | Dep(runner: Option<string>, debug: bool)
    | Hpa(runner: Option<string>)
    | Svc(runner: Option<string>, v: Variant)
    | Ing
    | Cfg(debug: bool)

  function KeyOf(i: Input, role: Role): Key {
    match role
    case Dep(r, debug) => Key(DeploymentKind, i.d.namespace, KubeName(i.d.name, i.b, r, debug))
    case Hpa(r) => Key(HpaKind, i.d.namespace, KubeName(i.d.name, i.b, r, false))
    case Svc(r, v) => Key(ServiceKind, i.d.namespace, ServiceName(i.d.name, i.hash, i.b, r, v))
    case Ing => Key(IngressKind, i.d.namespace, KubeName(i.d.name, i.b, None, false))
    case Cfg(debug) => Key(ConfigMapKind, i.d.namespace, ConfigName(i, debug))
  }

  function StepFor(i: Input, role: Role): Step {
    var key := KeyOf(i, role);
    match role
    case Dep(r, debug) => if debug && !WantsDebug(i.d, r) then Remove(key) else Apply(key, MakeDeployment(i, r, debug))
    case Hpa(r) => Apply(key, MakeHpa(i, r))
    case Svc(r, v) => if !v.Generic? && !WantsDebug(i.d, r) then Remove(key) else Apply(key, MakeService(i, r, v))
    case Ing => if i.d.ingressEnabled then ApplyIngress(key, MakeIngress(i)) else Remove(key)
    case Cfg(debug) => Apply(key, ConfigObj(ProxyRoutes(i, debug)))
  }

  function ServiceRoles(r: Option<string>): seq<Role> {
    [Svc(r, Generic), Svc(r, Production), Svc(r, Variant.Debug)]
  }

  function RunnerRoles(r: string): seq<Role> {
    [Dep(Some(r), false), Dep(Some(r), true), Hpa(Some(r))] + ServiceRoles(Some(r))
  }

  function AllRunnerRoles(rs: seq<string>): seq<Role> {
    if rs == [] then [] else AllRunnerRoles(rs[..|rs| - 1]) + RunnerRoles(rs[|rs| - 1])
  }

  /** The proxy's ConfigMap is written while its Deployment is generated. */
  function ApiDeploymentRoles(d: Deployment): seq<Role> {
    [Cfg(false), Dep(None, false)] + (if WantsDebug(d, None) then [Cfg(true)] else []) + [Dep(None, true)]
  }

  function ApiRoles(d: Deployment): seq<Role> {
    ApiDeploymentRoles(d) + [Hpa(None)] + ServiceRoles(None) + [Ing]
  }

  /** The steps of Reconcile in order: every runner, then the API server. */
  function Roles(i: Input): seq<Role> { AllRunnerRoles(i.b.runners) + ApiRoles(i.d) }

  function StepsFor(i: Input, roles: seq<Role>): (steps: seq<Step>)
    ensures |steps| == |roles|
    ensures forall k :: 0 <= k < |roles| ==> steps[k] == StepFor(i, roles[k])
  {
    seq(|roles|, k requires 0 <= k < |roles| => StepFor(i, roles[k]))
  }

  function Plan(i: Input): seq<Step> { StepsFor(i, Roles(i)) }
}
