/** One complete reconcile settles every object it manages, from any cluster state. */
module Convergence {
  import opened Options
  import opened Names
  import opened Desired
  import opened Plans

  /** What distinct names rest on; `NamesDistinctExact` shows that they need all of it. */
  ghost predicate NamesOk(i: Input) {
    Digests(i.hash) && NoCollision(i.d.name, i.hash, i.b) && NotOwnHash(i.d.name, i.hash, i.b)
  }

  function RunnerOf(role: Role): Option<string> {
    match role
    case Dep(r, _) => r
    case Hpa(r) => r
    case Svc(r, _) => r
    case _ => None
  }

  // ---------------------------------------------------------------- the plan covers every role

  lemma {:induction false} RunnerRolesIn(rs: seq<string>, r: string)
    requires r in rs
    ensures forall role :: role in RunnerRoles(r) ==> role in AllRunnerRoles(rs)
  {
    if rs[|rs| - 1] != r {
      assert r in rs[..|rs| - 1];
      RunnerRolesIn(rs[..|rs| - 1], r);
    }
  }

  lemma {:induction false} RunnerRolesOnly(rs: seq<string>, role: Role)
    requires role in AllRunnerRoles(rs)
    ensures RunnerOf(role).Some? && RunnerOf(role).value in rs && role in RunnerRoles(RunnerOf(role).value)
  {
    if role !in RunnerRoles(rs[|rs| - 1]) { RunnerRolesOnly(rs[..|rs| - 1], role); }
  }

  /** Exactly the roles of the API server and of the Bento's runners are in the plan; the debug
      proxy's ConfigMap only while debugging is wanted. */
  lemma RolesExact(i: Input, role: Role)
    ensures role in Roles(i) <==> Known(i.b, RunnerOf(role)) && (role == Cfg(true) ==> WantsDebug(i.d, None))
  {
    var r := RunnerOf(role);
    if role in AllRunnerRoles(i.b.runners) { RunnerRolesOnly(i.b.runners, role); }
    if r.Some? && r.value in i.b.runners {
      RunnerRolesIn(i.b.runners, r.value);
      assert role in RunnerRoles(r.value) by { RunnerRolesAre(role); }
    }
    ApiRolesAre(i.d, role);
  }

  lemma RunnerRolesAre(role: Role)
    requires RunnerOf(role).Some?
    ensures role in RunnerRoles(RunnerOf(role).value)
  {
    var roles := RunnerRoles(RunnerOf(role).value);
    match role
    case Dep(_, debug) => assert roles[if debug then 1 else 0] == role;
    case Hpa(_) => assert roles[2] == role;
    case Svc(_, v) => assert roles[if v.Generic? then 3 else if v.Production? then 4 else 5] == role;
  }

  lemma ApiRolesAre(d: Deployment, role: Role)
    ensures role in ApiRoles(d) <==> RunnerOf(role).None? && (role == Cfg(true) ==> WantsDebug(d, None))
  {
    hide WantsDebug;
    var roles := ApiRoles(d);
    var n := |ApiDeploymentRoles(d)|;
    if RunnerOf(role).None? {
      match role
      case Dep(_, debug) => assert roles[if debug then n - 1 else 1] == role;
      case Hpa(_) => assert roles[n] == role;
      case Svc(_, v) => assert roles[if v.Generic? then n + 1 else if v.Production? then n + 2 else n + 3] == role;
      case Ing => assert roles[n + 4] == role;
      case Cfg(debug) => if !debug { assert roles[0] == role; } else if WantsDebug(d, None) { assert roles[2] == role; }
    }
  }

  // ---------------------------------------------------------------- no step undoes another

  lemma KeysDistinct(i: Input, a: Role, b: Role)
    requires NamesOk(i) && Known(i.b, RunnerOf(a)) && Known(i.b, RunnerOf(b))
    requires KeyOf(i, a) == KeyOf(i, b)
    ensures a == b
  {
    hide KubeName, ServiceName, NoCollision, NotOwnHash;
    match a
    case Dep(r, debug) => KubeNamesDistinct(i.d.name, i.b, r, debug, b.runner, b.debug);
    case Hpa(r) => KubeNamesDistinct(i.d.name, i.b, r, false, b.runner, false);
    case Svc(r, v) => ServiceNamesDistinct(i.d.name, i.hash, i.b, r, v, b.runner, b.v);
    case Ing =>
    case Cfg(debug) => ConfigNamesDistinct(i);
  }

  lemma ConfigNamesDistinct(i: Input)
    ensures ConfigName(i, false) != ConfigName(i, true)
  {
    assert |ConfigName(i, true)| == |ConfigName(i, false)| + 2;
  }

  lemma PlanConsistent(i: Input)
    requires NamesOk(i)
    ensures Consistent(Plan(i))
  {
    hide Roles, NamesOk, KeyOf;
    var roles, steps := Roles(i), Plan(i);
    forall m, n | 0 <= m < |steps| && 0 <= n < |steps| && steps[m].key == steps[n].key ensures steps[m] == steps[n] {
      StepKey(i, roles[m]);
      StepKey(i, roles[n]);
      RolesExact(i, roles[m]);
      RolesExact(i, roles[n]);
      KeysDistinct(i, roles[m], roles[n]);
    }
  }

  lemma StepKey(i: Input, role: Role)
    ensures StepFor(i, role).key == KeyOf(i, role)
  {
    hide MakeDeployment, MakeService, MakeHpa, MakeIngress, ProxyRoutes, KeyOf, WantsDebug;
  }

  // ---------------------------------------------------------------- convergence

  /** Every object of every component is as wanted: present and equal to what is generated, or absent. */
  ghost predicate Converged(i: Input, before: Store, store: Store) {
    forall role :: role in Roles(i) ==> Settled(before, store, StepFor(i, role))
  }

  /** A complete reconcile converges from any store and touches nothing but its own keys. */
  lemma Converges(i: Input, store: Store)
    requires NamesOk(i)
    ensures Converged(i, store, Run(store, Plan(i)))
    ensures forall key :: (forall role :: role in Roles(i) ==> KeyOf(i, role) != key) ==>
              && (key in Run(store, Plan(i)) <==> key in store)
              && (key in store ==> Run(store, Plan(i))[key] == store[key])
  {
    hide Roles, StepFor, Settled, Consistent, Run, NamesOk;
    PlanConsistent(i);
    RunSettles(store, Plan(i));
    var roles := Roles(i);
    forall role | role in roles ensures Settled(store, Run(store, Plan(i)), StepFor(i, role)) {
      var k :| 0 <= k < |roles| && roles[k] == role;
      assert Plan(i)[k] == StepFor(i, role);
    }
    forall key | forall role :: role in roles ==> KeyOf(i, role) != key
      ensures key in Run(store, Plan(i)) <==> key in store
      ensures key in store ==> Run(store, Plan(i))[key] == store[key]
    {
      forall k | 0 <= k < |roles| ensures Plan(i)[k].key != key { StepKey(i, roles[k]); }
      RunFrame(store, Plan(i), key);
    }
  }

  /** A reconcile that stopped after `cut` steps, whatever its inputs were. */
  datatype Attempt = Attempt(i: Input, cut: nat)

  function Prefix(a: Attempt): seq<Step> { if a.cut <= |Plan(a.i)| then Plan(a.i)[..a.cut] else Plan(a.i) }

  // ---------------------------------------------------------------- references and selectors

  /** Which Services exist after a complete reconcile. */
  lemma ServicesPresent(i: Input, store: Store, r: Option<string>, v: Variant)
    requires NamesOk(i) && Known(i.b, r)
    ensures KeyOf(i, Svc(r, v)) in Run(store, Plan(i)) <==> v.Generic? || WantsDebug(i.d, r)
    ensures KeyOf(i, Svc(r, v)) in Run(store, Plan(i)) ==>
        Run(store, Plan(i))[KeyOf(i, Svc(r, v))] == MakeService(i, r, v)
  {
    hide Roles, Run, Plan, KeyOf, NamesOk, MakeService, WantsDebug;
    Converges(i, store);
    RolesExact(i, Svc(r, v));
    assert Settled(store, Run(store, Plan(i)), StepFor(i, Svc(r, v)));
  }

  /** The Services a production API server names for its runners all exist; a debug API server's
      reference exists exactly for the runners in stealing mode. */
  lemma ReferencesResolve(i: Input, store: Store, runner: string, debug: bool)
    requires NamesOk(i) && runner in i.b.runners
    ensures Key(ServiceKind, i.d.namespace, RunnerReference(i, runner, debug)) in Run(store, Plan(i))
            <==> !debug || IsStealing(i.d, Some(runner))
  {
    hide Run, Plan, NamesOk;
    var v := if !debug then Generic else if IsStealing(i.d, Some(runner)) then Variant.Debug else Production;
    ServicesPresent(i, store, Some(runner), v);
  }

  /** What else refers to an object by name finds it: an HPA scales the production Deployment of its own
      component, and the Ingress leads to the generic Service of the API server. */
  lemma TargetsExist(i: Input, store: Store, r: Option<string>)
    requires NamesOk(i) && Known(i.b, r)
    ensures var f := Run(store, Plan(i)); var hpa := KeyOf(i, Hpa(r));
            && hpa in f && f[hpa].HpaObj?
            && var target := Key(DeploymentKind, i.d.namespace, f[hpa].target);
               target in f && f[target] == MakeDeployment(i, r, false)
    ensures var f := Run(store, Plan(i)); var ing := KeyOf(i, Ing);
            if i.d.ingressEnabled then
              && ing in f && f[ing].IngressObj?
              && var backend := Key(ServiceKind, i.d.namespace, f[ing].backend);
                 backend in f && f[backend] == MakeService(i, None, Generic)
            else ing !in f
  {
    hide Roles, Run, Plan, NamesOk, MakeDeployment, MakeService, KubeName, ServiceName, KubeLabels, Other, IngressHost;
    Converges(i, store);
    RolesExact(i, Hpa(r));
    RolesExact(i, Dep(r, false));
    RolesExact(i, Ing);
    ServicesPresent(i, store, None, Generic);
    var f := Run(store, Plan(i));
    assert Settled(store, f, StepFor(i, Hpa(r))) && Settled(store, f, StepFor(i, Dep(r, false)));
    assert Settled(store, f, StepFor(i, Ing));
  }

  predicate Selects(selector: Labels, labels: Labels) {
    forall k :: k in selector ==> k in labels && labels[k] == selector[k]
  }

  lemma SelectorLabel(d: Deployment, b: Bento, r: Option<string>, debug: bool)
    requires Selector !in ExtraPodLabels(d, r)
    ensures var labels := PodLabels(d, b, r, debug);
            Selector in labels && labels[Selector] == KubeName(d.name, b, r, debug)
  {
    hide KubeName, KubeLabels, ExtraPodLabels;
  }

  lemma DeploymentParts(i: Input, r: Option<string>, debug: bool)
    ensures MakeDeployment(i, r, debug).DeploymentObj?
    ensures MakeDeployment(i, r, debug).template.labels == PodLabels(i.d, i.b, r, debug)
    ensures MakeDeployment(i, r, debug).selector == map[Selector := KubeName(i.d.name, i.b, r, debug)]
  {
    hide KubeName, KubeLabels, PodLabels, RunnerServices, ConfigName, Other;
  }

  lemma SelectsByName(name: string, labels: Labels)
    requires Selector in labels
    ensures Selects(map[Selector := name], labels) <==> labels[Selector] == name
  {
    var selector: Labels := map[Selector := name];
    assert Selector in selector;
  }

  /** A Deployment selects exactly its own pods among all those of the BentoDeployment, as long as no
      extra pod label replaces the selector label. */
  lemma SelectorsExclusive(i: Input, r: Option<string>, debug: bool, r': Option<string>, debug': bool)
    requires Known(i.b, r) && Known(i.b, r')
    requires Selector !in ExtraPodLabels(i.d, r')
    ensures Selects(MakeDeployment(i, r, debug).selector, MakeDeployment(i, r', debug').template.labels)
            <==> r == r' && debug == debug'
  {
    hide KubeName, PodLabels, ExtraPodLabels, MakeDeployment, Selects;
    DeploymentParts(i, r, debug);
    DeploymentParts(i, r', debug');
    SelectorLabel(i.d, i.b, r', debug');
    var name, name' := KubeName(i.d.name, i.b, r, debug), KubeName(i.d.name, i.b, r', debug');
    SelectsByName(name, PodLabels(i.d, i.b, r', debug'));
    if name == name' { KubeNamesDistinct(i.d.name, i.b, r, debug, r', debug'); }
  }

  // ---------------------------------------------------------------- the Ingress host

  function IngressKey(d: Deployment): Key { Key(IngressKind, d.namespace, d.name) }

  lemma IngressKeyOf(i: Input)
    ensures KeyOf(i, Ing) == IngressKey(i.d)
  {
    assert i.d.name + "" == i.d.name;
  }

  /** Steps that keep an Ingress and its host. */
  predicate HostSafe(steps: seq<Step>, key: Key) {
    forall m :: 0 <= m < |steps| && steps[m].key == key ==> steps[m].ApplyIngress? && steps[m].obj.IngressObj?
  }

  lemma {:induction false} HostKept(store: Store, steps: seq<Step>, key: Key)
    requires HostSafe(steps, key) && key in store && store[key].IngressObj?
    ensures key in Run(store, steps) && Run(store, steps)[key].IngressObj?
    ensures Run(store, steps)[key].host == store[key].host
    decreases |steps|
  {
    if steps != [] {
      var init := steps[..|steps| - 1];
      assert forall m :: 0 <= m < |init| ==> init[m] == steps[m];
      HostKept(store, init, key);
    }
  }

  /** While ingress is enabled, no part of a reconcile touches the host of an existing Ingress. */
  lemma PlanHostSafe(i: Input, d: Deployment, cut: nat)
    requires i.d.ingressEnabled && i.d.name == d.name && i.d.namespace == d.namespace
    ensures HostSafe(Prefix(Attempt(i, cut)), IngressKey(d))
  {
    hide Roles;
    IngressKeyOf(i);
    forall m | 0 <= m < |Plan(i)| && Plan(i)[m].key == IngressKey(d)
      ensures Plan(i)[m].ApplyIngress? && Plan(i)[m].obj.IngressObj?
    {
      StepKey(i, Roles(i)[m]);
    }
  }

  /** The host of the TLS section follows the domain suffix although the rule's host does not: once the
      two differ they stay apart. */
  lemma TlsHostDiverges(i: Input, store: Store)
    requires NamesOk(i) && i.d.ingressEnabled && i.d.ingressTls
    requires IngressKey(i.d) in store && store[IngressKey(i.d)].IngressObj?
    ensures var after := Run(store, Plan(i)); var key := IngressKey(i.d);
            && key in after && after[key].IngressObj?
            && (after[key].tlsHost == Some(after[key].host) <==> store[key].host == IngressHost(i))
  {
    hide Roles, Run, Plan, NamesOk, IngressKey;
    Converges(i, store);
    RolesExact(i, Ing);
    IngressKeyOf(i);
    assert Settled(store, Run(store, Plan(i)), StepFor(i, Ing));
  }
}
