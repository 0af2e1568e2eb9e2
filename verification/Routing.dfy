/** Where a request to the API server's Service ends up while traffic is being stolen for debugging. */
module Routing {
  import opened Options
  import opened Names
  import opened Desired
  import opened Plans
  import opened Convergence

  // ---------------------------------------------------------------- which pods a Service selects

  ghost predicate OnlyCustom(labels: Labels) { forall k :: k in labels ==> k.Custom? }

  /** No user label of this component has a reserved key. */
  ghost predicate Unreserved(d: Deployment, r: Option<string>) {
    OnlyCustom(ExtraLabels(d, r)) && OnlyCustom(ExtraPodLabels(d, r))
  }

  /** No extra pod label contradicts a label of the component. */
  ghost predicate Agree(d: Deployment, r: Option<string>) {
    forall k :: k in ExtraLabels(d, r) && k in ExtraPodLabels(d, r) ==> ExtraLabels(d, r)[k] == ExtraPodLabels(d, r)[k]
  }

  /** Whether the Service takes pods of both target types. */
  predicate TakesBoth(d: Deployment, r: Option<string>, v: Variant) {
    v.Generic? && (r.None? || HasTrue(ResourceAnnotations(d, r), RECEIVE_PRODUCTION))
  }

  lemma KubeLabelsAre(d: Deployment, b: Bento, r: Option<string>)
    requires OnlyCustom(ExtraLabels(d, r))
    ensures var l := KubeLabels(d, b, r); var extra := ExtraLabels(d, r);
            && Owner in l && l[Owner] == d.name && Repository in l && l[Repository] == b.repository
            && Version in l && l[Version] == b.version && TargetType in l && l[TargetType] == PRODUCTION
            && Creator in l && l[Creator] == "yatai-deployment" && Selector !in l
            && ComponentType in l && l[ComponentType] == (if r.Some? then RUNNER else API_SERVER)
            && (ComponentName in l <==> r.Some?) && (r.Some? ==> l[ComponentName] == r.value)
            && (forall key :: Custom(key) in l <==> Custom(key) in extra)
            && (forall key :: Custom(key) in extra ==> l[Custom(key)] == extra[Custom(key)])
  {
    hide ExtraLabels;
  }

  lemma PodLabelsAre(d: Deployment, b: Bento, r: Option<string>, debug: bool)
    requires Unreserved(d, r)
    ensures var l := PodLabels(d, b, r, debug); var kube := KubeLabels(d, b, r); var extra := ExtraPodLabels(d, r);
            && TargetType in l && l[TargetType] == (if debug then DEBUG else PRODUCTION)
            && (forall k :: k in l <==> k in kube || k == Selector || k in extra)
            && (forall k :: k in kube && !k.TargetType? && k !in extra ==> l[k] == kube[k])
            && (forall k :: k in extra ==> l[k] == extra[k])
  {
    hide ExtraLabels, ExtraPodLabels, KubeLabels, KubeName;
    KubeLabelsAre(d, b, r);
  }

  lemma SelectorIs(d: Deployment, b: Bento, r: Option<string>, v: Variant)
    requires OnlyCustom(ExtraLabels(d, r))
    ensures var s := ServiceSelector(d, b, r, v); var kube := KubeLabels(d, b, r);
            && (forall k :: k in s <==> k in kube && (k == TargetType ==> !TakesBoth(d, r, v)))
            && (forall k :: k in s && k != TargetType ==> s[k] == kube[k])
            && (TargetType in s ==> s[TargetType] == if v.Debug? then DEBUG else PRODUCTION)
  {
    hide ExtraLabels, KubeLabels, HasTrue, ResourceAnnotations;
    KubeLabelsAre(d, b, r);
  }

  /** The component labels of a pod are as generated, whatever the user's labels. */
  lemma ComponentLabels(d: Deployment, b: Bento, r: Option<string>, debug: bool)
    requires Unreserved(d, r)
    ensures var l := PodLabels(d, b, r, debug);
            && ComponentType in l && l[ComponentType] == (if r.Some? then RUNNER else API_SERVER)
            && (ComponentName in l <==> r.Some?) && (r.Some? ==> l[ComponentName] == r.value)
  {
    hide ExtraLabels, ExtraPodLabels, KubeLabels, PodLabels;
    KubeLabelsAre(d, b, r);
    PodLabelsAre(d, b, r, debug);
  }

  lemma ComponentSelector(d: Deployment, b: Bento, r: Option<string>, v: Variant)
    requires Unreserved(d, r)
    ensures var s := ServiceSelector(d, b, r, v);
            && ComponentType in s && s[ComponentType] == (if r.Some? then RUNNER else API_SERVER)
            && (r.Some? ==> ComponentName in s && s[ComponentName] == r.value)
  {
    hide ExtraLabels, ExtraPodLabels, KubeLabels, ServiceSelector, TakesBoth;
    KubeLabelsAre(d, b, r);
    SelectorIs(d, b, r, v);
  }

  lemma SelectedAreOwn(d: Deployment, b: Bento, r: Option<string>, v: Variant, r': Option<string>, debug: bool)
    requires Unreserved(d, r) && Unreserved(d, r')
    requires Selects(ServiceSelector(d, b, r, v), PodLabels(d, b, r', debug))
    ensures r == r'
  {
    hide Unreserved, ServiceSelector, PodLabels;
    ComponentSelector(d, b, r, v);
    ComponentLabels(d, b, r', debug);
    assert RUNNER != API_SERVER;
  }

  lemma SelectedAgree(d: Deployment, b: Bento, r: Option<string>, v: Variant, debug: bool)
    requires Unreserved(d, r)
    requires Selects(ServiceSelector(d, b, r, v), PodLabels(d, b, r, debug))
    ensures Agree(d, r) && (TakesBoth(d, r, v) || v.Debug? == debug)
  {
    hide ExtraLabels, ExtraPodLabels, KubeLabels, ServiceSelector, PodLabels, TakesBoth;
    KubeLabelsAre(d, b, r);
    SelectorIs(d, b, r, v);
    PodLabelsAre(d, b, r, debug);
    var s := ServiceSelector(d, b, r, v);
    forall k | k in ExtraLabels(d, r) && k in ExtraPodLabels(d, r)
      ensures ExtraLabels(d, r)[k] == ExtraPodLabels(d, r)[k]
    {
      assert k in s && Custom(k.key) == k;
    }
  }

  lemma OwnAreSelected(d: Deployment, b: Bento, r: Option<string>, v: Variant, debug: bool)
    requires Unreserved(d, r) && Agree(d, r) && (TakesBoth(d, r, v) || v.Debug? == debug)
    ensures Selects(ServiceSelector(d, b, r, v), PodLabels(d, b, r, debug))
  {
    hide ExtraLabels, ExtraPodLabels, KubeLabels, ServiceSelector, PodLabels, TakesBoth;
    KubeLabelsAre(d, b, r);
    SelectorIs(d, b, r, v);
    PodLabelsAre(d, b, r, debug);
    var s, extra := ServiceSelector(d, b, r, v), ExtraPodLabels(d, r);
    forall k | k in s && k in extra ensures s[k] == extra[k] { assert Custom(k.key) == k; }
  }

  /** A Service selects exactly the pods of its own component and target type; none at all if the
      component's labels and extra pod labels contradict each other. */
  lemma ServiceSelectsExact(d: Deployment, b: Bento, r: Option<string>, v: Variant, r': Option<string>, debug: bool)
    requires Unreserved(d, r) && Unreserved(d, r')
    ensures Selects(ServiceSelector(d, b, r, v), PodLabels(d, b, r', debug))
            <==> r == r' && Agree(d, r) && (TakesBoth(d, r, v) || v.Debug? == debug)
  {
    hide Unreserved, Agree, ServiceSelector, PodLabels, TakesBoth, Selects;
    if Selects(ServiceSelector(d, b, r, v), PodLabels(d, b, r', debug)) {
      SelectedAreOwn(d, b, r, v, r', debug);
      SelectedAgree(d, b, r, v, debug);
    } else if r == r' && Agree(d, r) && (TakesBoth(d, r, v) || v.Debug? == debug) {
      OwnAreSelected(d, b, r, v, debug);
    }
  }

  // ---------------------------------------------------------------- requests

  datatype ServicePort = MainPort | NonProxyPort

  /** Where a request is: at a port of a Service, at a port of a pod of some Deployment, or handled by
      the main container of such a pod. */
  datatype Place = AtService(svc: Key, port: ServicePort) | AtPod(pod: Key, target: PortName) | Served(pod: Key)

  predicate IsDeployment(store: Store, key: Key) {
    key in store && store[key].DeploymentObj? && key.kind == DeploymentKind
  }

  /** A Service forwards to any pod of its namespace that its selector matches. */
  predicate Picks(store: Store, svc: Key, pod: Key) {
    && svc in store && store[svc].ServiceObj? && IsDeployment(store, pod) && pod.namespace == svc.namespace
    && Selects(store[svc].selector, store[pod].template.labels)
  }

  function Route(routes: Routes, header: bool): Address { if header then routes.debug else routes.production }

  /** The proxy of a pod passes a request on by its first matching route; `header` says whether the
      request carries the debug header. */
  predicate Proxied(store: Store, header: bool, pod: Key, next: Place)
    requires IsDeployment(store, pod)
  {
    var t := store[pod].template;
    t.proxy.Some? &&
    var config := Key(ConfigMapKind, pod.namespace, t.proxy.value.config);
    && config in store && store[config].ConfigObj?
    && match Route(store[config].routes, header)
       case Localhost(port) => port == t.port && port != t.proxy.value.port && next == Served(pod)
       case ClusterService(name, namespace) => next == AtService(Key(ServiceKind, namespace, name), NonProxyPort)
  }

  predicate Next(store: Store, header: bool, a: Place, b: Place) {
    match a
    case AtService(svc, port) =>
      b.AtPod? && Picks(store, svc, b.pod) && b.target == if port.NonProxyPort? then Http else store[svc].httpTarget
    case AtPod(pod, target) =>
      IsDeployment(store, pod) && if target.Http? then b == Served(pod) else Proxied(store, header, pod, b)
    case Served(_) => false
  }

  predicate IsTrace(store: Store, header: bool, trace: seq<Place>) {
    forall k :: 0 <= k < |trace| - 1 ==> Next(store, header, trace[k], trace[k + 1])
  }

  // ---------------------------------------------------------------- the pods behind a Service

  /** The pods of `obj` do not pose as pods of the component. */
  predicate NotOurs(i: Input, r: Option<string>, obj: Object) {
    obj.DeploymentObj? ==>
      var l := obj.template.labels;
      !(&& Owner in l && l[Owner] == i.d.name
        && ComponentType in l && l[ComponentType] == (if r.Some? then RUNNER else API_SERVER)
        && (r.Some? ==> ComponentName in l && l[ComponentName] == r.value))
  }

  ghost predicate Manages(i: Input, key: Key) { exists role :: role in Roles(i) && KeyOf(i, role) == key }

  ghost predicate NoImpostors(i: Input, store: Store, r: Option<string>) {
    forall key :: key in store && key.kind == DeploymentKind && !Manages(i, key) ==> NotOurs(i, r, store[key])
  }

  ghost predicate AllUnreserved(i: Input) { forall r :: Known(i.b, r) ==> Unreserved(i.d, r) }

  /** Nobody else interferes with the labels of a component: no user label on a reserved key, and no other
      Deployment that poses as it. */
  ghost predicate Undisputed(i: Input, store: Store, r: Option<string>) {
    NamesOk(i) && Known(i.b, r) && AllUnreserved(i) && NoImpostors(i, store, r)
  }

  /** Nor do the component's own labels contradict each other. */
  ghost predicate InOrder(i: Input, store: Store, r: Option<string>) { Undisputed(i, store, r) && Agree(i.d, r) }

  function Final(i: Input, store: Store): Store { Run(store, Plan(i)) }

  lemma DeploymentsPresent(i: Input, store: Store, r: Option<string>, debug: bool)
    requires NamesOk(i) && Known(i.b, r) && (debug ==> WantsDebug(i.d, r))
    ensures Dep(r, debug) in Roles(i)
    ensures IsDeployment(Final(i, store), KeyOf(i, Dep(r, debug)))
    ensures Final(i, store)[KeyOf(i, Dep(r, debug))] == MakeDeployment(i, r, debug)
  {
    hide Roles, Run, Plan, NamesOk, MakeDeployment, WantsDebug, KubeName;
    Converges(i, store);
    RolesExact(i, Dep(r, debug));
    DeploymentParts(i, r, debug);
    assert Settled(store, Final(i, store), StepFor(i, Dep(r, debug)));
  }

  lemma ConfigsPresent(i: Input, store: Store, debug: bool)
    requires NamesOk(i) && ContainsStealing(i.d)
    ensures KeyOf(i, Cfg(debug)) in Final(i, store)
    ensures Final(i, store)[KeyOf(i, Cfg(debug))] == ConfigObj(ProxyRoutes(i, debug))
  {
    hide Roles, Run, Plan, NamesOk, ProxyRoutes, KeyOf, ContainsStealing;
    Converges(i, store);
    RolesExact(i, Cfg(debug));
    assert Settled(store, Final(i, store), StepFor(i, Cfg(debug)));
  }

  /** The selector of a Service rejects a pod that lacks the owner or component labels. */
  lemma SelectorNeedsLabels(i: Input, r: Option<string>, v: Variant, obj: Object)
    requires Unreserved(i.d, r) && obj.DeploymentObj? && NotOurs(i, r, obj)
    ensures !Selects(ServiceSelector(i.d, i.b, r, v), obj.template.labels)
  {
    hide ExtraLabels, ExtraPodLabels, KubeLabels, ServiceSelector, TakesBoth;
    KubeLabelsAre(i.d, i.b, r);
    SelectorIs(i.d, i.b, r, v);
    ComponentSelector(i.d, i.b, r, v);
    var s := ServiceSelector(i.d, i.b, r, v);
    assert Owner in s && s[Owner] == i.d.name;
  }

  /** Objects that are not managed are as they were. */
  lemma OthersRemain(i: Input, store: Store, key: Key)
    requires NamesOk(i) && !Manages(i, key)
    ensures key in Final(i, store) <==> key in store
    ensures key in store ==> Final(i, store)[key] == store[key]
  {
    hide Roles, Run, Plan, NamesOk, KeyOf;
    Converges(i, store);
    assert forall role :: role in Roles(i) ==> KeyOf(i, role) != key;
  }

  lemma ManagedDeployment(i: Input, key: Key) returns (r: Option<string>, debug: bool)
    requires Manages(i, key) && key.kind == DeploymentKind
    ensures Known(i.b, r) && Dep(r, debug) in Roles(i) && KeyOf(i, Dep(r, debug)) == key
  {
    hide Roles, KubeName, ServiceName, ConfigName;
    var role :| role in Roles(i) && KeyOf(i, role) == key;
    RolesExact(i, role);
    r, debug := role.runner, role.debug;
  }

  lemma NotImpostor(i: Input, store: Store, r: Option<string>, key: Key)
    requires NoImpostors(i, store, r) && key in store && key.kind == DeploymentKind && !Manages(i, key)
    ensures NotOurs(i, r, store[key])
  {
    hide Manages, NotOurs;
  }

  lemma ServiceIs(i: Input, store: Store, r: Option<string>, v: Variant)
    requires NamesOk(i) && Known(i.b, r)
    ensures var f := Final(i, store); var svc := KeyOf(i, Svc(r, v));
            && svc.namespace == i.d.namespace && svc.kind == ServiceKind
            && (svc in f <==> v.Generic? || WantsDebug(i.d, r))
            && (svc in f ==>
                  && f[svc].ServiceObj? && f[svc].selector == ServiceSelector(i.d, i.b, r, v)
                  && f[svc].httpTarget == if r.None? && v.Generic? && ContainsStealing(i.d) then HttpProxy else Http)
  {
    hide NamesOk, ContainsStealing, WantsDebug, KubeLabels, ServiceSelector, ServiceName, Run, Plan;
    ServicesPresent(i, store, r, v);
  }

  /** A managed Deployment that is present is the generated one, and a debug one is wanted. */
  lemma PresentIsMade(i: Input, store: Store, r: Option<string>, debug: bool)
    requires NamesOk(i) && Dep(r, debug) in Roles(i) && KeyOf(i, Dep(r, debug)) in Final(i, store)
    ensures Final(i, store)[KeyOf(i, Dep(r, debug))].DeploymentObj?
    ensures Final(i, store)[KeyOf(i, Dep(r, debug))].template.labels == PodLabels(i.d, i.b, r, debug)
    ensures debug ==> WantsDebug(i.d, r)
  {
    hide Roles, Run, Plan, NamesOk, MakeDeployment, WantsDebug, KubeName, PodLabels;
    Converges(i, store);
    DeploymentParts(i, r, debug);
    assert Settled(store, Final(i, store), StepFor(i, Dep(r, debug)));
  }

  /** The pods a Service should have behind it. */
  predicate Behind(i: Input, r: Option<string>, v: Variant, debug: bool) {
    (debug ==> WantsDebug(i.d, r)) && (TakesBoth(i.d, r, v) || v.Debug? == debug)
  }

  lemma PickedAreBehind(i: Input, store: Store, r: Option<string>, v: Variant, pod: Key) returns (debug: bool)
    requires Undisputed(i, store, r) && Picks(Final(i, store), KeyOf(i, Svc(r, v)), pod)
    ensures pod == KeyOf(i, Dep(r, debug)) && Behind(i, r, v, debug) && Agree(i.d, r)
  {
    hide Roles, NamesOk, WantsDebug, ContainsStealing, Agree, Unreserved, NoImpostors, Manages, Final, KeyOf, Selects,
         NotOurs, ServiceSelector, TakesBoth, PodLabels, Known;
    assert Unreserved(i.d, r);
    ServiceIs(i, store, r, v);
    if Manages(i, pod) {
      var r', debug' := ManagedDeployment(i, pod);
      PresentIsMade(i, store, r', debug');
      assert Unreserved(i.d, r');
      ServiceSelectsExact(i.d, i.b, r, v, r', debug');
      debug := debug';
    } else {
      OthersRemain(i, store, pod);
      NotImpostor(i, store, r, pod);
      SelectorNeedsLabels(i, r, v, Final(i, store)[pod]);
    }
  }

  lemma BehindArePicked(i: Input, store: Store, r: Option<string>, v: Variant, debug: bool)
    requires InOrder(i, store, r) && Behind(i, r, v, debug) && KeyOf(i, Svc(r, v)) in Final(i, store)
    ensures Picks(Final(i, store), KeyOf(i, Svc(r, v)), KeyOf(i, Dep(r, debug)))
  {
    hide Roles, NamesOk, WantsDebug, ContainsStealing, Agree, Unreserved, NoImpostors, Final, KubeName, ServiceName,
         Selects, MakeDeployment, ServiceSelector, TakesBoth, PodLabels, Known;
    assert Unreserved(i.d, r);
    ServiceIs(i, store, r, v);
    DeploymentsPresent(i, store, r, debug);
    DeploymentParts(i, r, debug);
    ServiceSelectsExact(i.d, i.b, r, v, r, debug);
  }

  /** After a complete reconcile a Service of any component forwards to exactly the pods of the component's
      own Deployments of the right target type. */
  lemma ServicePicksExact(i: Input, store: Store, r: Option<string>, v: Variant, pod: Key)
    requires InOrder(i, store, r) && KeyOf(i, Svc(r, v)) in Final(i, store)
    ensures Picks(Final(i, store), KeyOf(i, Svc(r, v)), pod)
            <==> exists debug :: pod == KeyOf(i, Dep(r, debug)) && Behind(i, r, v, debug)
  {
    hide Undisputed, Agree, Picks, Final, KeyOf, Behind;
    if Picks(Final(i, store), KeyOf(i, Svc(r, v)), pod) {
      var debug := PickedAreBehind(i, store, r, v, pod);
    } else if debug :| pod == KeyOf(i, Dep(r, debug)) && Behind(i, r, v, debug) {
      BehindArePicked(i, store, r, v, debug);
    }
  }

  /** The calls of an API server to its runners: those of a debug pod to a runner in stealing mode reach
      debug pods only; those of a production pod reach the runner's production pods, and its debug pods
      exactly if the runner is in stealing mode and its debug pods may receive production traffic. */
  lemma RunnerCallsArrive(i: Input, store: Store, runner: string, fromDebug: bool, pod: Key)
    requires InOrder(i, store, Some(runner)) && (fromDebug ==> IsStealing(i.d, Some(runner)))
    ensures var svc := Key(ServiceKind, i.d.namespace, RunnerReference(i, runner, fromDebug));
            && svc in Final(i, store)
            && (Picks(Final(i, store), svc, pod)
                <==> if fromDebug then pod == KeyOf(i, Dep(Some(runner), true))
                     else
                       || pod == KeyOf(i, Dep(Some(runner), false))
                       || (&& pod == KeyOf(i, Dep(Some(runner), true)) && IsStealing(i.d, Some(runner))
                           && HasTrue(ResourceAnnotations(i.d, Some(runner)), RECEIVE_PRODUCTION)))
  {
    hide InOrder, Picks, Final, IsStealing, HasTrue, ResourceAnnotations, KubeName, ServiceName;
    var r, v := Some(runner), if fromDebug then Variant.Debug else Generic;
    ReferenceIsService(i, runner, fromDebug, v);
    ServiceIs(i, store, r, v) by { OrderedNames(i, store, r); }
    ServicePicksExact(i, store, r, v, pod);
  }

  lemma OrderedNames(i: Input, store: Store, r: Option<string>)
    requires InOrder(i, store, r)
    ensures NamesOk(i) && Known(i.b, r)
  {}

  lemma ReferenceIsService(i: Input, runner: string, fromDebug: bool, v: Variant)
    requires fromDebug ==> IsStealing(i.d, Some(runner))
    requires v == if fromDebug then Variant.Debug else Generic
    ensures KeyOf(i, Svc(Some(runner), v)) == Key(ServiceKind, i.d.namespace, RunnerReference(i, runner, fromDebug))
  {
    hide ServiceName, IsStealing;
  }

  // ---------------------------------------------------------------- the API server's Services

  /** Debugging is on for something, labels are in order, and the server does not listen on the proxy's port. */
  ghost predicate Debugging(i: Input, store: Store) {
    InOrder(i, store, None) && ContainsStealing(i.d) && ContainerPort(i, None) != ProxyPort(i)
  }

  function Api(i: Input, debug: bool): Key { KeyOf(i, Dep(None, debug)) }

  lemma ApiBehind(i: Input, v: Variant, debug: bool)
    requires ContainsStealing(i.d)
    ensures Behind(i, None, v, debug) <==> v.Generic? || v.Debug? == debug
  {
    hide ContainsStealing;
  }

  /** A pod behind one of the API server's Services is a pod of one of its two Deployments. */
  lemma PickedIsOurs(i: Input, store: Store, v: Variant, pod: Key)
    requires Debugging(i, store) && Picks(Final(i, store), KeyOf(i, Svc(None, v)), pod)
    ensures exists debug :: pod == Api(i, debug) && (v.Generic? || v.Debug? == debug)
  {
    hide Undisputed, Agree, Picks, Final, KeyOf, Behind, ContainsStealing, ContainerPort, ProxyPort;
    var debug := PickedAreBehind(i, store, None, v, pod);
    ApiBehind(i, v, debug);
    assert pod == Api(i, debug);
  }

  lemma ApiServiceIs(i: Input, store: Store, v: Variant)
    requires NamesOk(i) && ContainsStealing(i.d)
    ensures var f := Final(i, store); var svc := KeyOf(i, Svc(None, v));
            svc in f && f[svc].ServiceObj? && f[svc].httpTarget == if v.Generic? then HttpProxy else Http
  {
    hide NamesOk, ContainsStealing, Final, KeyOf, ServiceSelector;
    ServiceIs(i, store, None, v);
  }

  /** The pods of the right target type are behind each Service. */
  lemma OursIsPicked(i: Input, store: Store, v: Variant, debug: bool)
    requires Debugging(i, store) && (v.Generic? || v.Debug? == debug)
    ensures Picks(Final(i, store), KeyOf(i, Svc(None, v)), Api(i, debug))
  {
    hide Picks, Final, KeyOf, Behind, NamesOk, ContainsStealing, AllUnreserved, Agree, NoImpostors, ContainerPort,
         ProxyPort;
    ApiServiceIs(i, store, v);
    ApiBehind(i, v, debug);
    BehindArePicked(i, store, None, v, debug);
  }

  lemma ApiDeploymentIs(i: Input, store: Store, debug: bool)
    requires NamesOk(i) && ContainsStealing(i.d)
    ensures var f := Final(i, store); var pod := Api(i, debug);
            && IsDeployment(f, pod) && pod.namespace == i.d.namespace
            && f[pod].template.labels == PodLabels(i.d, i.b, None, debug)
            && f[pod].template.port == ContainerPort(i, None)
            && f[pod].template.proxy == Some(Proxy(ConfigName(i, debug), ProxyPort(i)))
  {
    hide NamesOk, ContainsStealing, KubeLabels, KubeName, Final, PodLabels, ContainerPort, ProxyPort, ConfigName,
         RunnerServices, Other;
    DeploymentsPresent(i, store, None, debug);
  }

  // ---------------------------------------------------------------- requests arrive

  /** Where a request can be after `k` steps: at the generic Service, at the proxy of either kind of pod,
      served there or sent to the Service of the other kind, at a main container, served. */
  ghost predicate OnTrack(i: Input, header: bool, k: nat, p: Place) {
    if k == 0 then p == AtService(KeyOf(i, Svc(None, Generic)), MainPort)
    else if k == 1 then exists debug :: p == AtPod(Api(i, debug), HttpProxy)
    else if k == 2 then p == Served(Api(i, header)) || p == AtService(OwnService(i, header), NonProxyPort)
    else if k == 3 then p == AtPod(Api(i, header), Http)
    else k == 4 && p == Served(Api(i, header))
  }

  function OwnService(i: Input, debug: bool): Key { KeyOf(i, Svc(None, if debug then Variant.Debug else Production)) }

  /** The proxy of a pod keeps the requests of its own kind and sends the others on. */
  lemma ProxyDecides(i: Input, store: Store, header: bool, debug: bool, next: Place)
    requires Debugging(i, store) && IsDeployment(Final(i, store), Api(i, debug))
    ensures Proxied(Final(i, store), header, Api(i, debug), next)
            <==> next == if header == debug then Served(Api(i, debug))
                         else AtService(OwnService(i, header), NonProxyPort)
  {
    hide Roles, NamesOk, ContainsStealing, AllUnreserved, Agree, NoImpostors, Final, KubeName, ServiceName, ConfigName,
         PodLabels, ContainerPort, ProxyPort;
    ApiDeploymentIs(i, store, debug);
    ConfigsPresent(i, store, debug);
  }

  lemma StaysOnTrack(i: Input, store: Store, header: bool, k: nat, a: Place, b: Place)
    requires Debugging(i, store) && OnTrack(i, header, k, a) && Next(Final(i, store), header, a, b)
    ensures OnTrack(i, header, k + 1, b)
  {
    hide Debugging, KeyOf, Picks, Proxied, Final, IsDeployment;
    StealingParts(i, store);
    match a
    case AtService(svc, port) =>
      var v := if k == 0 then Generic else if header then Variant.Debug else Production;
      ApiServiceIs(i, store, v);
      PickedIsOurs(i, store, v, b.pod);
    case AtPod(pod, target) =>
      if target.HttpProxy? {
        var debug :| a == AtPod(Api(i, debug), HttpProxy);
        ProxyDecides(i, store, header, debug, b);
      }
  }

  lemma StealingParts(i: Input, store: Store)
    requires Debugging(i, store)
    ensures NamesOk(i) && ContainsStealing(i.d)
  {}

  lemma MovesOn(i: Input, store: Store, header: bool, k: nat, a: Place)
    requires Debugging(i, store) && OnTrack(i, header, k, a) && !a.Served?
    ensures exists b :: Next(Final(i, store), header, a, b)
  {
    hide Debugging, KeyOf, Picks, Proxied, Final, IsDeployment;
    StealingParts(i, store);
    match a
    case AtService(svc, port) =>
      var v := if k == 0 then Generic else if header then Variant.Debug else Production;
      ApiServiceIs(i, store, v);
      OursIsPicked(i, store, v, header);
      assert Next(Final(i, store), header, a, AtPod(Api(i, header), if port.NonProxyPort? then Http else HttpProxy));
    case AtPod(pod, target) =>
      if target.HttpProxy? {
        var debug :| a == AtPod(Api(i, debug), HttpProxy);
        ApiDeploymentIs(i, store, debug);
        var b := if header == debug then Served(Api(i, debug)) else AtService(OwnService(i, header), NonProxyPort);
        ProxyDecides(i, store, header, debug, b);
        assert Next(Final(i, store), header, a, b);
      } else {
        ApiDeploymentIs(i, store, header);
        assert Next(Final(i, store), header, a, Served(pod));
      }
  }

  lemma {:induction false} TraceOnTrack(i: Input, store: Store, header: bool, trace: seq<Place>, k: nat)
    requires Debugging(i, store) && IsTrace(Final(i, store), header, trace) && k < |trace|
    requires trace[0] == AtService(KeyOf(i, Svc(None, Generic)), MainPort)
    ensures OnTrack(i, header, k, trace[k])
  {
    hide Debugging, Next, Final, KeyOf;
    if k > 0 {
      TraceOnTrack(i, store, header, trace, k - 1);
      StaysOnTrack(i, store, header, k - 1, trace[k - 1], trace[k]);
    }
  }

  /** After a complete reconcile in which anything is in stealing mode: whichever pods the Services pick, a
      request to the generic Service of the API server takes at most four steps, only one of them from a
      proxy to another Service, never gets stuck, and ends in the main container of a debug pod if it
      carries the debug header and of a production pod if it does not. */
  lemma RequestsArrive(i: Input, store: Store, header: bool, trace: seq<Place>)
    requires Debugging(i, store) && IsTrace(Final(i, store), header, trace) && trace != []
    requires trace[0] == AtService(KeyOf(i, Svc(None, Generic)), MainPort)
    ensures |trace| <= 5
    ensures forall k :: 0 < k < |trace| && trace[k].AtService? ==> k == 2
    ensures var last := trace[|trace| - 1];
            if last.Served? then
              var final := Final(i, store);
              && last.pod == Api(i, header) && IsDeployment(final, last.pod)
              && TargetType in final[last.pod].template.labels
              && final[last.pod].template.labels[TargetType] == (if header then DEBUG else PRODUCTION)
            else exists next :: Next(Final(i, store), header, last, next)
  {
    hide Debugging, Next, Final, KeyOf, IsDeployment, PodLabels, Unreserved;
    var n := |trace|;
    forall k | 0 <= k < n ensures OnTrack(i, header, k, trace[k]) { TraceOnTrack(i, store, header, trace, k); }
    if trace[n - 1].Served? {
      ServedBy(i, store, header);
    } else {
      MovesOn(i, store, header, n - 1, trace[n - 1]);
    }
  }

  lemma ServedBy(i: Input, store: Store, header: bool)
    requires Debugging(i, store)
    ensures var final := Final(i, store); var pod := Api(i, header);
            && IsDeployment(final, pod) && TargetType in final[pod].template.labels
            && final[pod].template.labels[TargetType] == (if header then DEBUG else PRODUCTION)
  {
    hide NamesOk, ContainsStealing, Agree, Unreserved, NoImpostors, Final, KeyOf, PodLabels, IsDeployment,
         ContainerPort, ProxyPort, ConfigName;
    assert Unreserved(i.d, None);
    ApiDeploymentIs(i, store, header);
    PodLabelsAre(i.d, i.b, None, header);
  }

  // ---------------------------------------------------------------- when they do not

  /** As `Debugging`, but for the two things that are the component's own doing. */
  ghost predicate Stealing(i: Input, store: Store) { Undisputed(i, store, None) && ContainsStealing(i.d) }

  function Start(i: Input): Place { AtService(KeyOf(i, Svc(None, Generic)), MainPort) }

  /** A request at `p` is served where it should be, or moves on. */
  ghost predicate OnItsWay(i: Input, store: Store, header: bool, p: Place) {
    if p.Served? then
      var final := Final(i, store);
      && p.pod == Api(i, header) && IsDeployment(final, p.pod) && TargetType in final[p.pod].template.labels
      && final[p.pod].template.labels[TargetType] == (if header then DEBUG else PRODUCTION)
    else exists next :: Next(Final(i, store), header, p, next)
  }

  ghost predicate AllArrive(i: Input, store: Store) {
    forall header, trace: seq<Place> ::
      IsTrace(Final(i, store), header, trace) && trace != [] && trace[0] == Start(i) ==>
        OnItsWay(i, store, header, trace[|trace| - 1])
  }

  lemma ArriveAt(i: Input, store: Store, header: bool, trace: seq<Place>)
    requires AllArrive(i, store) && IsTrace(Final(i, store), header, trace) && trace != [] && trace[0] == Start(i)
    ensures OnItsWay(i, store, header, trace[|trace| - 1])
  {
    hide OnItsWay, Final, IsTrace;
  }

  /** With contradictory labels the generic Service has no pods. */
  lemma NothingPicked(i: Input, store: Store, pod: Key)
    requires Stealing(i, store) && Picks(Final(i, store), KeyOf(i, Svc(None, Generic)), pod)
    ensures Agree(i.d, None)
  {
    hide Undisputed, Agree, Picks, Final, KeyOf, Behind, ContainsStealing;
    var debug := PickedAreBehind(i, store, None, Generic, pod);
  }

  /** On the proxy's own port no request of a production pod's kind gets past the proxy. */
  lemma ProxyStuck(i: Input, store: Store, next: Place)
    requires Stealing(i, store) && ContainerPort(i, None) == ProxyPort(i)
    ensures !Next(Final(i, store), false, AtPod(Api(i, false), HttpProxy), next)
  {
    hide Undisputed, ContainsStealing, Final, KubeName, ServiceName, ConfigName, PodLabels, ContainerPort, ProxyPort;
    UndisputedNames(i, store);
    ApiDeploymentIs(i, store, false);
    ConfigsPresent(i, store, false);
  }

  lemma UndisputedNames(i: Input, store: Store)
    requires Undisputed(i, store, None)
    ensures NamesOk(i)
  {}

  lemma FirstStep(i: Input, store: Store)
    requires Stealing(i, store) && Agree(i.d, None)
    ensures Next(Final(i, store), false, Start(i), AtPod(Api(i, false), HttpProxy))
  {
    hide Undisputed, Agree, ContainsStealing, Final, KeyOf, Picks, Behind;
    UndisputedNames(i, store);
    ApiServiceIs(i, store, Generic);
    ApiBehind(i, Generic, false);
    BehindArePicked(i, store, None, Generic, false);
  }

  lemma OneStepTrace(final: Store, header: bool, a: Place, b: Place)
    requires Next(final, header, a, b)
    ensures IsTrace(final, header, [a]) && IsTrace(final, header, [a, b])
  {
    hide Next;
  }

  /** Otherwise undisputed, every request arrives, whichever pods are picked, if and only if the labels of the
      API server do not contradict each other and its server does not listen on the proxy's port. */
  lemma RequestsArriveExact(i: Input, store: Store)
    requires Stealing(i, store)
    ensures AllArrive(i, store) <==> Agree(i.d, None) && ContainerPort(i, None) != ProxyPort(i)
  {
    hide Undisputed, Agree, ContainsStealing, Final, KeyOf, IsDeployment, Next, IsTrace, ContainerPort, ProxyPort;
    if Agree(i.d, None) && ContainerPort(i, None) != ProxyPort(i) {
      forall header, trace: seq<Place> |
        IsTrace(Final(i, store), header, trace) && trace != [] && trace[0] == Start(i)
        ensures OnItsWay(i, store, header, trace[|trace| - 1])
      {
        RequestsArrive(i, store, header, trace);
      }
    } else if AllArrive(i, store) {
      hide AllArrive;
      if Agree(i.d, None) {
        var pod := AtPod(Api(i, false), HttpProxy);
        FirstStep(i, store);
        OneStepTrace(Final(i, store), false, Start(i), pod);
        ArriveAt(i, store, false, [Start(i), pod]);
        var next :| Next(Final(i, store), false, pod, next);
        ProxyStuck(i, store, next);
      } else {
        Departs(i, store);
        NothingPickedYet(i, store);
      }
    }
  }

  lemma Departs(i: Input, store: Store)
    requires AllArrive(i, store)
    ensures exists next :: Next(Final(i, store), false, Start(i), next)
  {
    hide Final, Next, AllArrive;
    assert IsTrace(Final(i, store), false, [Start(i)]);
    ArriveAt(i, store, false, [Start(i)]);
  }

  lemma NothingPickedYet(i: Input, store: Store)
    requires Stealing(i, store) && exists next :: Next(Final(i, store), false, Start(i), next)
    ensures Agree(i.d, None)
  {
    hide Stealing, Agree, Picks, Final, KeyOf;
    var next :| Next(Final(i, store), false, Start(i), next);
    NothingPicked(i, store, next.pod);
  }
}
