/** What the cluster holds after a complete run, field by field, in terms of the specification, the Bento and
    the texts that are written out in the operator. */
module Contents {
  import opened Options
  import opened Names
  import opened ExporterEnv
  import opened Desired
  import opened Plans
  import opened Convergence

  // ---------------------------------------------------------------- names

  /** `name` first occurs at index `k`. */
  predicate FirstAt(names: seq<string>, name: string, k: nat) {
    k < |names| && names[k] == name && forall j :: 0 <= j < k ==> names[j] != name
  }

  lemma {:induction false} FirstIndexAt(names: seq<string>, name: string, k: nat)
    requires FirstAt(names, name, k)
    ensures FirstIndex(names, name) == Some(k)
    decreases k
  {
    if k > 0 {
      assert names[0] != name;
      FirstIndexAt(names[1..], name, k - 1);
    }
  }

  lemma KubeNameSpelled(name: string, b: Bento, r: Option<string>, debug: bool)
    ensures r.None? ==> KubeName(name, b, r, debug) == if debug then name + "-d" else name
    ensures r.Some? ==> forall k: nat :: FirstAt(b.runners, r.value, k) ==>
              KubeName(name, b, r, debug) == name + ((if debug then "-runner-d-" else "-runner-") + Decimal(k))
  {
    hide Decimal;
    assert name + "" == name;
    if r.Some? {
      forall k: nat | FirstAt(b.runners, r.value, k) ensures FirstIndex(b.runners, r.value) == Some(k) {
        FirstIndexAt(b.runners, r.value, k);
      }
    }
  }

  lemma DecimalSpelled(n: nat, d: nat)
    requires d < 10
    ensures Decimal(d) == ["0123456789"[d]]
    ensures n > 0 ==> Decimal(10 * n + d) == Decimal(n) + Decimal(d)
  {}

  /** What tells the three Services of a component apart. */
  function Word(v: Variant): string {
    match v case Generic => "" case Production => "p-" case Debug => "d-"
  }

  lemma ServiceNameSpelled(name: string, hash: Hash, b: Bento, r: Option<string>, v: Variant)
    requires Digests(hash)
    ensures r.None? ==>
              ServiceName(name, hash, b, r, v)
              == match v case Generic => name case Production => name + "-p" case Debug => name + "-d"
    ensures r.Some? ==>
              var text := b.repository + ":" + b.version + "-" + r.value;
              ServiceName(name, hash, b, r, v)
              == if |name| > (if v.Generic? then 23 else 21) then "runner-" + Word(v) + hash(name + "-" + text)
                 else name + ("-runner-" + Word(v) + hash(text))
  {
    assert name + "" == name;
    if r.Some? {
      NameByHash(name, hash, b, r.value, v);
      assert Infix(v) == "runner-" + Word(v);
      assert "-" + Infix(v) == "-runner-" + Word(v);
    }
  }

  // ---------------------------------------------------------------- entries and annotations

  /** `spec` is the first entry for the runner. */
  predicate EntryAt(d: Deployment, runner: string, k: nat) {
    k < |d.runners| && d.runners[k].name == runner && forall j :: 0 <= j < k ==> d.runners[j].name != runner
  }

  predicate NoEntry(d: Deployment, runner: string) { forall spec :: spec in d.runners ==> spec.name != runner }

  lemma {:induction false} FindRunnerAt(rs: seq<RunnerSpec>, name: string, k: nat)
    requires k < |rs| && rs[k].name == name && forall j :: 0 <= j < k ==> rs[j].name != name
    ensures FindRunner(rs, name) == Some(rs[k])
    decreases k
  {
    if k > 0 {
      assert rs[0].name != name;
      FindRunnerAt(rs[1..], name, k - 1);
    }
  }

  lemma {:induction false} FindRunnerNone(rs: seq<RunnerSpec>, name: string)
    requires forall spec :: spec in rs ==> spec.name != name
    ensures FindRunner(rs, name) == None
  {
    if rs != [] {
      assert rs[0] in rs;
      FindRunnerNone(rs[1..], name);
    }
  }

  lemma EntryIs(d: Deployment, runner: string)
    ensures forall k: nat :: EntryAt(d, runner, k) ==> FindRunner(d.runners, runner) == Some(d.runners[k])
    ensures NoEntry(d, runner) ==> FindRunner(d.runners, runner) == None
  {
    forall k: nat | EntryAt(d, runner, k) ensures FindRunner(d.runners, runner) == Some(d.runners[k]) {
      FindRunnerAt(d.runners, runner, k);
    }
    if NoEntry(d, runner) { FindRunnerNone(d.runners, runner); }
  }

  predicate SaysTrue(annotations: map<string, string>, key: string) { key in annotations && annotations[key] == "true" }

  predicate Steals(annotations: map<string, string>) {
    SaysTrue(annotations, "yatai.ai/enable-stealing-traffic-debug-mode")
  }

  /** The BentoDeployment or the entry of some runner is in stealing mode. */
  predicate AnySteals(d: Deployment) {
    Steals(d.annotations) || exists spec :: spec in d.runners && Steals(spec.annotations)
  }

  lemma AnyStealsIs(d: Deployment)
    ensures ContainsStealing(d) <==> AnySteals(d)
  {
    if AnySteals(d) && !Steals(d.annotations) {
      var spec :| spec in d.runners && Steals(spec.annotations);
      var k :| 0 <= k < |d.runners| && d.runners[k] == spec;
      assert HasTrue(d.runners[k].annotations, STEALING);
    }
  }

  /** The first entry for the runner is in stealing mode. */
  ghost predicate EntrySteals(d: Deployment, runner: string) {
    exists k: nat :: EntryAt(d, runner, k) && Steals(d.runners[k].annotations)
  }

  lemma {:induction false} SomeEntry(d: Deployment, runner: string, n: nat)
    requires n <= |d.runners| && forall j :: 0 <= j < n ==> d.runners[j].name != runner
    ensures NoEntry(d, runner) || exists k: nat :: EntryAt(d, runner, k)
    decreases |d.runners| - n
  {
    if n < |d.runners| {
      if d.runners[n].name == runner { assert EntryAt(d, runner, n); } else { SomeEntry(d, runner, n + 1); }
    }
  }

  lemma EntryStealsIs(d: Deployment, runner: string)
    ensures IsStealing(d, Some(runner)) <==> EntrySteals(d, runner)
  {
    EntryIs(d, runner);
    SomeEntry(d, runner, 0);
  }

  // ---------------------------------------------------------------- which objects there are

  function DeploymentNamed(i: Input, name: string): Key { Key(DeploymentKind, i.d.namespace, name) }

  function ServiceNamed(i: Input, name: string): Key { Key(ServiceKind, i.d.namespace, name) }

  function After(i: Input, store: Store): Store { Run(store, Plan(i)) }

  lemma HashesAre(i: Input)
    requires NamesOk(i)
    ensures Digests(i.hash)
  {}

  lemma DeploymentsAre(i: Input, store: Store, r: Option<string>, debug: bool)
    requires NamesOk(i) && Known(i.b, r)
    ensures KeyOf(i, Dep(r, debug)) in After(i, store) <==> !debug || WantsDebug(i.d, r)
    ensures KeyOf(i, Dep(r, debug)) in After(i, store) ==>
              After(i, store)[KeyOf(i, Dep(r, debug))] == MakeDeployment(i, r, debug)
  {
    hide Roles, Run, Plan, KeyOf, NamesOk, MakeDeployment, WantsDebug;
    Converges(i, store);
    RolesExact(i, Dep(r, debug));
    assert Settled(store, After(i, store), StepFor(i, Dep(r, debug)));
  }

  /** The debug objects of the API server are there if and only if the BentoDeployment or some runner entry
      has the annotation; then, too, its generic Service leads to the proxy. */
  lemma DebugObjectsExact(i: Input, store: Store)
    requires NamesOk(i)
    ensures var f, name := After(i, store), i.d.name;
            && (DeploymentNamed(i, name + "-d") in f <==> AnySteals(i.d))
            && (ServiceNamed(i, name + "-p") in f <==> AnySteals(i.d))
            && (ServiceNamed(i, name + "-d") in f <==> AnySteals(i.d))
            && DeploymentNamed(i, name) in f && ServiceNamed(i, name) in f && f[ServiceNamed(i, name)].ServiceObj?
            && f[ServiceNamed(i, name)].httpTarget == if AnySteals(i.d) then HttpProxy else Http
  {
    hide Run, Plan, NamesOk, MakeDeployment, ContainsStealing, AnySteals, KubeName, ServiceName, KubeLabels,
         ServiceSelector;
    AnyStealsIs(i.d);
    KubeNameSpelled(i.d.name, i.b, None, false);
    KubeNameSpelled(i.d.name, i.b, None, true);
    DeploymentsAre(i, store, None, false);
    DeploymentsAre(i, store, None, true);
    HashesAre(i);
    forall v: Variant ensures ServiceName(i.d.name, i.hash, i.b, None, v)
        == match v case Generic => i.d.name case Production => i.d.name + "-p" case Debug => i.d.name + "-d"
    {
      ServiceNameSpelled(i.d.name, i.hash, i.b, None, v);
    }
    ServicesPresent(i, store, None, Generic);
    ServicesPresent(i, store, None, Production);
    ServicesPresent(i, store, None, Variant.Debug);
  }

  /** The debug objects of a runner are there if and only if its own entry has the annotation. */
  lemma RunnerDebugObjectsExact(i: Input, store: Store, runner: string, k: nat)
    requires NamesOk(i) && FirstAt(i.b.runners, runner, k)
    ensures var f := After(i, store);
            && (DeploymentNamed(i, i.d.name + ("-runner-d-" + Decimal(k))) in f <==> EntrySteals(i.d, runner))
            && DeploymentNamed(i, i.d.name + ("-runner-" + Decimal(k))) in f
            && forall v :: KeyOf(i, Svc(Some(runner), v)) in f <==> v.Generic? || EntrySteals(i.d, runner)
  {
    hide Run, Plan, NamesOk, MakeDeployment, MakeService, EntrySteals, IsStealing, KubeName, ServiceName, Decimal;
    EntryStealsIs(i.d, runner);
    KubeNameSpelled(i.d.name, i.b, Some(runner), false);
    KubeNameSpelled(i.d.name, i.b, Some(runner), true);
    DeploymentsAre(i, store, Some(runner), false);
    DeploymentsAre(i, store, Some(runner), true);
    forall v ensures KeyOf(i, Svc(Some(runner), v)) in After(i, store) <==> v.Generic? || EntrySteals(i.d, runner) {
      ServicesPresent(i, store, Some(runner), v);
    }
  }

  // ---------------------------------------------------------------- labels and selectors

  /** `own` is the first entry for a runner, if there is one. */
  ghost predicate OwnEntry(d: Deployment, r: Option<string>, own: Option<RunnerSpec>) {
    match own
    case None => r.Some? ==> NoEntry(d, r.value)
    case Some(spec) => r.Some? && exists k: nat :: EntryAt(d, r.value, k) && d.runners[k] == spec
  }

  lemma OwnEntryIs(d: Deployment, r: Option<string>, own: Option<RunnerSpec>)
    requires OwnEntry(d, r, own)
    ensures r.Some? ==> FindRunner(d.runners, r.value) == own
    ensures r.None? ==> own.None?
  {
    if r.Some? { EntryIs(d, r.value); }
  }

  /** The labels the operator itself gives. */
  function Standard(d: Deployment, b: Bento, r: Option<string>, key: Label): Option<string> {
    match key
    case Owner => Some(d.name)
    case Repository => Some(b.repository)
    case Version => Some(b.version)
    case TargetType => Some("production")
    case Creator => Some("yatai-deployment")
    case ComponentType => Some(if r.Some? then "runner" else "api-server")
    case ComponentName => r
    case Selector => None
    case Custom(_) => None
  }

  function At(labels: Labels, key: Label): Option<string> { if key in labels then Some(labels[key]) else None }

  /** The user's labels, those of the entry if there is one, replace the standard ones. */
  lemma LabelsSpelled(d: Deployment, b: Bento, r: Option<string>, own: Option<RunnerSpec>, key: Label)
    requires OwnEntry(d, r, own)
    ensures var user := if own.Some? then own.value.labels else d.labels;
            At(KubeLabels(d, b, r), key) == if key in user then Some(user[key]) else Standard(d, b, r, key)
  {
    hide OwnEntry, FindRunner;
    OwnEntryIs(d, r, own);
  }

  /** A pod's labels are its component's, but for the target type of a debug pod, the Bento of a runner and
      the name of its Deployment; the user's extra pod labels replace all of them. */
  lemma PodLabelsSpelled(
      d: Deployment, b: Bento, r: Option<string>, own: Option<RunnerSpec>, debug: bool, key: Label)
    requires OwnEntry(d, r, own)
    ensures var extra := if own.Some? then own.value.podLabels else d.podLabels;
            At(PodLabels(d, b, r, debug), key)
            == if extra.Some? && key in extra.value then Some(extra.value[key])
               else if key == Selector then Some(KubeName(d.name, b, r, debug))
               else if key == TargetType && debug then Some("debug")
               else if key == Repository && r.Some? then Some(b.repository)
               else if key == Version && r.Some? then Some(b.version)
               else At(KubeLabels(d, b, r), key)
  {
    hide OwnEntry, FindRunner, KubeLabels, KubeName;
    OwnEntryIs(d, r, own);
  }

  /** A Service selects by its component's labels, with the target type of a debug Service; the generic one
      of the API server, or of a runner whose debug pods may receive production traffic, by all others. */
  lemma SelectorSpelled(d: Deployment, b: Bento, r: Option<string>, own: Option<RunnerSpec>, v: Variant, key: Label)
    requires OwnEntry(d, r, own)
    ensures At(ServiceSelector(d, b, r, v), key)
         == if key != TargetType then At(KubeLabels(d, b, r), key)
            else if v.Debug? then Some("debug")
            else if v.Generic? && (r.None? || (own.Some? && SharesProduction(own.value.annotations))) then None
            else At(KubeLabels(d, b, r), key)
  {
    hide OwnEntry, FindRunner, KubeLabels;
    OwnEntryIs(d, r, own);
  }

  predicate SharesProduction(annotations: map<string, string>) {
    SaysTrue(annotations, "yatai.ai/enable-debug-pod-receive-production-traffic")
  }

  // ---------------------------------------------------------------- fields

  /** A Deployment that is there has its component's labels, selects by its own name, and runs pods with
      the port and service account of the component's specification. */
  lemma DeploymentSpelled(i: Input, store: Store, r: Option<string>, own: Option<RunnerSpec>, debug: bool)
    requires NamesOk(i) && Known(i.b, r) && OwnEntry(i.d, r, own)
    requires KeyOf(i, Dep(r, debug)) in After(i, store)
    ensures var o := After(i, store)[KeyOf(i, Dep(r, debug))];
            && o.DeploymentObj? && o.labels == KubeLabels(i.d, i.b, r)
            && o.selector == map[Selector := KubeName(i.d.name, i.b, r, debug)]
            && o.template.labels == PodLabels(i.d, i.b, r, debug)
            && (var port := if r.None? then i.d.port else if own.Some? then own.value.port else None;
                o.template.port == if port.Some? then port.value else i.basePort)
            && (var account := if own.Some? then own.value.account else i.d.account;
                if account != "" then o.template.account == account
                else if i.accounts == {} then o.template.account == "default"
                else (r, debug) in i.orders.accounts ==> o.template.account == i.orders.accounts[(r, debug)])
            && o.template.other == if own.Some? then own.value.other else i.d.other
  {
    hide OwnEntry, FindRunner, KubeLabels, PodLabels, KubeName, NamesOk, Run, Plan;
    DeploymentsAre(i, store, r, debug);
    OwnEntryIs(i.d, r, own);
  }

  /** Only the API server has a proxy, runners to call and a monitor exporter. */
  lemma ApiPodsSpelled(i: Input, store: Store, r: Option<string>, debug: bool)
    requires NamesOk(i) && Known(i.b, r) && KeyOf(i, Dep(r, debug)) in After(i, store)
    ensures After(i, store)[KeyOf(i, Dep(r, debug))].DeploymentObj?
    ensures var t := After(i, store)[KeyOf(i, Dep(r, debug))].template;
            if r.Some? then t.proxy == None && t.runnerServices == [] && t.exporterVars == []
            else
              && t.proxy == Some(Proxy(i.d.name + (if debug then "-d" else "") + "-envoy-config", i.basePort + 4))
              && |t.runnerServices| == |i.b.runners|
              && (forall k :: 0 <= k < |i.b.runners| ==>
                    t.runnerServices[k] == ServiceName(i.d.name, i.hash, i.b, Some(i.b.runners[k]),
                      if !debug then Generic
                      else if EntrySteals(i.d, i.b.runners[k]) then Variant.Debug else Production))
              && t.exporterVars ==
                 match i.d.exporter
                 case None => []
                 case Some(e) =>
                   if e.enabled then Vars(i.casing, e, if debug then i.orders.debug else i.orders.production) else []
  {
    hide KubeLabels, PodLabels, KubeName, ServiceName, NamesOk, Run, Plan, ServiceAccount, Vars, EntrySteals,
         IsStealing, ContainerPort;
    DeploymentsAre(i, store, r, debug);
    KubeNameSpelled(i.d.name, i.b, None, debug);
    if r.None? {
      assert i.d.name + "" == i.d.name;
      forall k | 0 <= k < |i.b.runners|
        ensures IsStealing(i.d, Some(i.b.runners[k])) <==> EntrySteals(i.d, i.b.runners[k])
      {
        EntryStealsIs(i.d, i.b.runners[k]);
      }
    }
  }

  lemma RoutesSpelled(i: Input, debug: bool)
    requires Digests(i.hash)
    ensures var own := Localhost(if i.d.port.Some? then i.d.port.value else i.basePort);
            ProxyRoutes(i, debug)
            == if debug then Routes(own, ClusterService(i.d.name + "-p", i.d.namespace))
               else Routes(ClusterService(i.d.name + "-d", i.d.namespace), own)
  {
    hide ServiceName;
    ServiceNameSpelled(i.d.name, i.hash, i.b, None, if debug then Production else Variant.Debug);
  }

  lemma ConfigNameSpelled(i: Input, debug: bool)
    ensures ConfigName(i, debug) == i.d.name + (if debug then "-d" else "") + "-envoy-config"
  {
    hide KubeName;
    KubeNameSpelled(i.d.name, i.b, None, debug);
    assert i.d.name + "" == i.d.name;
  }

  /** The proxy of a pod keeps the requests of its own kind, those with the debug header or the others, and
      sends the rest to the Service of the other kind. The proxy of the debug pods is configured if
      something is in stealing mode. */
  lemma ProxySpelled(i: Input, store: Store, debug: bool)
    requires NamesOk(i) && (debug ==> AnySteals(i.d))
    ensures var f := After(i, store);
            var config := Key(ConfigMapKind, i.d.namespace, i.d.name + (if debug then "-d" else "") + "-envoy-config");
            var own := Localhost(if i.d.port.Some? then i.d.port.value else i.basePort);
            && config in f && f[config].ConfigObj?
            && f[config].routes == if debug then Routes(own, ClusterService(i.d.name + "-p", i.d.namespace))
                                   else Routes(ClusterService(i.d.name + "-d", i.d.namespace), own)
  {
    hide Roles, Run, Plan, NamesOk, ConfigName, ProxyRoutes, AnySteals, ContainsStealing;
    AnyStealsIs(i.d);
    HashesAre(i);
    ConfigNameSpelled(i, debug);
    RoutesSpelled(i, debug);
    Converges(i, store);
    RolesExact(i, Cfg(debug));
    assert Settled(store, After(i, store), StepFor(i, Cfg(debug)));
  }

  /** An Ingress that is created has a host made of name, namespace and domain suffix. */
  lemma IngressSpelled(i: Input, store: Store)
    requires NamesOk(i)
    ensures var f, key := After(i, store), Key(IngressKind, i.d.namespace, i.d.name);
            && (key in f <==> i.d.ingressEnabled)
            && (key in f ==>
                  && f[key].IngressObj? && f[key].backend == i.d.name && f[key].other == i.d.other
                  && f[key].labels == KubeLabels(i.d, i.b, None) + i.d.ingressLabels
                  && f[key].tlsHost
                     == (if i.d.ingressTls then Some(i.d.name + "-" + i.d.namespace + "." + i.domainSuffix) else None)
                  && (key !in store || !store[key].IngressObj? ==>
                        f[key].host == i.d.name + "-" + i.d.namespace + "." + i.domainSuffix))
  {
    hide Roles, Run, Plan, NamesOk, KubeName, ServiceName, KubeLabels;
    HashesAre(i);
    KubeNameSpelled(i.d.name, i.b, None, false);
    ServiceNameSpelled(i.d.name, i.hash, i.b, None, Generic);
    Converges(i, store);
    RolesExact(i, Ing);
    assert Settled(store, After(i, store), StepFor(i, Ing));
  }

  /** The HPA of a component scales its production Deployment. */
  lemma HpaSpelled(i: Input, store: Store, r: Option<string>, own: Option<RunnerSpec>)
    requires NamesOk(i) && Known(i.b, r) && OwnEntry(i.d, r, own)
    ensures var f, name := After(i, store), KubeName(i.d.name, i.b, r, false);
            var key := Key(HpaKind, i.d.namespace, name);
            && key in f && f[key]
               == HpaObj(KubeLabels(i.d, i.b, r), name, if own.Some? then own.value.other else i.d.other)
  {
    hide Roles, Run, Plan, NamesOk, KubeName, KubeLabels, OwnEntry, FindRunner;
    OwnEntryIs(i.d, r, own);
    Converges(i, store);
    RolesExact(i, Hpa(r));
    assert Settled(store, After(i, store), StepFor(i, Hpa(r)));
  }

  /** Any Service that is there has its component's labels and leads to the HTTP port of the main container,
      but for the generic one of an API server that is being debugged. */
  lemma ServiceSpelled(i: Input, store: Store, r: Option<string>, v: Variant)
    requires NamesOk(i) && Known(i.b, r) && KeyOf(i, Svc(r, v)) in After(i, store)
    ensures After(i, store)[KeyOf(i, Svc(r, v))]
         == ServiceObj(KubeLabels(i.d, i.b, r), ServiceSelector(i.d, i.b, r, v),
                       if r.None? && v.Generic? && AnySteals(i.d) then HttpProxy else Http)
  {
    hide Run, Plan, NamesOk, ServiceName, KubeLabels, ServiceSelector, AnySteals, ContainsStealing;
    AnyStealsIs(i.d);
    ServicesPresent(i, store, r, v);
  }
}
