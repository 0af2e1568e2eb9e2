/** Reconciling again: what a second run of the same BentoDeployment does, when the exporter's options may
    be visited, and service accounts listed, in another order. */
module Repetition {
  import opened Options
  import opened Names
  import opened ExporterEnv
  import opened Desired
  import opened Plans
  import opened Convergence

  /** The same inputs, with other visits of the options and other lists of the accounts. */
  function Revisit(i: Input, o: Orders): Input { i.(orders := o) }

  /** The orders are possible: visits of all options, and an account that is there at the head of each list. */
  ghost predicate OrdersOk(i: Input) {
    && (HasExporter(i.d, None) ==>
          Visits(i.d.exporter.value.options, i.orders.production) && Visits(i.d.exporter.value.options, i.orders.debug))
    && (i.accounts != {} ==>
          forall r, debug :: Known(i.b, r) ==>
            (r, debug) in i.orders.accounts && i.orders.accounts[(r, debug)] in i.accounts)
  }

  /** The exporter is off, or its options give the same list however they are visited. */
  ghost predicate ExporterFixed(i: Input) { HasExporter(i.d, None) ==> OrderFree(i.casing, i.d.exporter.value) }

  /** The component names its account, or there are not two to choose from. */
  ghost predicate AccountFixed(i: Input, r: Option<string>) {
    OwnAccount(i.d, r) != "" || forall a, b :: a in i.accounts && b in i.accounts ==> a == b
  }

  ghost predicate Fixed(i: Input, r: Option<string>) { (r.None? ==> ExporterFixed(i)) && AccountFixed(i, r) }

  /** Nothing about the Deployments of this BentoDeployment is left to the order of visits and lists. */
  ghost predicate Repeatable(i: Input) { forall r :: Known(i.b, r) ==> Fixed(i, r) }

  /** Two Deployments equal up to the order of the exporter's variables and the service account. */
  predicate SameButOrder(a: Object, b: Object) {
    && a.DeploymentObj? && b.DeploymentObj?
    && a == b.(template := b.template.(exporterVars := a.template.exporterVars, account := a.template.account))
    && multiset(a.template.exporterVars) == multiset(b.template.exporterVars)
  }

  predicate SameButHost(a: Object, b: Object) { a.IngressObj? && b.IngressObj? && a == b.(host := a.host) }

  // ---------------------------------------------------------------- the steps of two runs

  lemma RevisitKeeps(i: Input, o: Orders, role: Role)
    ensures Roles(Revisit(i, o)) == Roles(i) && KeyOf(Revisit(i, o), role) == KeyOf(i, role)
    ensures NamesOk(Revisit(i, o)) == NamesOk(i)
  {
    hide KubeName, ServiceName, NoCollision, NotOwnHash, ApiRoles, AllRunnerRoles, Digests;
  }

  lemma RevisitVars(i: Input, o: Orders, debug: bool)
    requires OrdersOk(i) && OrdersOk(Revisit(i, o))
    ensures multiset(ExporterVars(i, None, debug)) == multiset(ExporterVars(Revisit(i, o), None, debug))
    ensures ExporterFixed(i) ==> ExporterVars(i, None, debug) == ExporterVars(Revisit(i, o), None, debug)
  {
    hide Visits, OrderFree, OptionVars, StructureVars, Known;
    if HasExporter(i.d, None) {
      var order := if debug then i.orders.debug else i.orders.production;
      var order' := if debug then o.debug else o.production;
      SameVars(i.casing, i.d.exporter.value, order, order');
      if ExporterFixed(i) { OrderFreeAgrees(i.casing, i.d.exporter.value, order, order'); }
    }
  }

  lemma RevisitAccount(i: Input, o: Orders, r: Option<string>, debug: bool)
    requires OrdersOk(i) && OrdersOk(Revisit(i, o)) && Known(i.b, r)
    ensures AccountFixed(i, r) ==> ServiceAccount(i, r, debug) == ServiceAccount(Revisit(i, o), r, debug)
  {
    hide Visits, HasExporter, OwnAccount;
    if i.accounts != {} {
      assert i.orders.accounts[(r, debug)] in i.accounts && o.accounts[(r, debug)] in i.accounts;
    }
  }

  /** Only the exporter's variables and the account depend on the orders. */
  lemma MadeFromOrders(i: Input, o: Orders, r: Option<string>, debug: bool)
    ensures var a, b := MakeDeployment(i, r, debug), MakeDeployment(Revisit(i, o), r, debug);
            && a.DeploymentObj? && b.DeploymentObj?
            && a.template.exporterVars == ExporterVars(i, r, debug)
            && b.template.exporterVars == ExporterVars(Revisit(i, o), r, debug)
            && a.template.account == ServiceAccount(i, r, debug)
            && b.template.account == ServiceAccount(Revisit(i, o), r, debug)
            && a == b.(template := b.template.(exporterVars := a.template.exporterVars, account := a.template.account))
            && (r.Some? ==> a.template.exporterVars == [] == b.template.exporterVars)
  {
    hide KubeName, KubeLabels, PodLabels, ServiceName, Other, FindRunner, Vars, ServiceAccount;
    assert RunnerServices(i, debug) == RunnerServices(Revisit(i, o), debug);
  }

  lemma OtherSteps(i: Input, o: Orders, role: Role)
    requires !role.Dep?
    ensures StepFor(Revisit(i, o), role) == StepFor(i, role)
  {
    hide KubeName, ServiceName, ServiceSelector, KubeLabels, WantsDebug, FindRunner, Other, ContainsStealing;
  }

  lemma DeploymentStep(i: Input, r: Option<string>, debug: bool)
    ensures StepFor(i, Dep(r, debug))
         == if debug && !WantsDebug(i.d, r) then Remove(KeyOf(i, Dep(r, debug)))
            else Apply(KeyOf(i, Dep(r, debug)), MakeDeployment(i, r, debug))
  {}

  predicate StepsAlike(x: Step, y: Step) {
    x == y || (x.Apply? && y.Apply? && x.key == y.key && SameButOrder(x.obj, y.obj))
  }

  lemma RevisitStep(i: Input, o: Orders, role: Role)
    requires OrdersOk(i) && OrdersOk(Revisit(i, o)) && role in Roles(i)
    ensures StepsAlike(StepFor(i, role), StepFor(Revisit(i, o), role))
    ensures !role.Dep? || Fixed(i, role.runner) ==> StepFor(i, role) == StepFor(Revisit(i, o), role)
  {
    hide StepFor, KeyOf, MakeDeployment, WantsDebug, OrdersOk, ExporterFixed, AccountFixed, ExporterVars,
         ServiceAccount, Roles;
    if role.Dep? {
      var r, debug := role.runner, role.debug;
      RolesExact(i, role);
      RevisitKeeps(i, o, role);
      DeploymentStep(i, r, debug);
      DeploymentStep(Revisit(i, o), r, debug);
      MadeFromOrders(i, o, r, debug);
      RevisitAccount(i, o, r, debug);
      if r.None? { RevisitVars(i, o, debug); }
    } else {
      OtherSteps(i, o, role);
    }
  }

  lemma RevisitPlan(i: Input, o: Orders)
    requires OrdersOk(i) && OrdersOk(Revisit(i, o)) && Repeatable(i)
    ensures Plan(Revisit(i, o)) == Plan(i)
  {
    hide StepFor, OrdersOk, Roles, Fixed;
    RevisitKeeps(i, o, Ing);
    forall k | 0 <= k < |Roles(i)| ensures Plan(Revisit(i, o))[k] == Plan(i)[k] {
      RolesExact(i, Roles(i)[k]);
      RevisitStep(i, o, Roles(i)[k]);
    }
  }

  // ---------------------------------------------------------------- from two starting points

  lemma SettledAlike(b: Store, s: Store, x: Step, b': Store, s': Store, y: Step)
    requires Settled(b, s, x) && Settled(b', s', y) && StepsAlike(x, y)
    ensures x.key == y.key && (x.key in s <==> x.key in s')
    ensures x.key in s ==>
              s[x.key] == s'[x.key] || SameButHost(s[x.key], s'[x.key]) || SameButOrder(s[x.key], s'[x.key])
    ensures x.key in s && x == y && !x.ApplyIngress? ==> s[x.key] == s'[x.key]
  {
    hide SameButOrder;
  }

  lemma OnlyIngressKeepsHost(i: Input, role: Role)
    ensures StepFor(i, role).ApplyIngress? ==> role.Ing?
  {
    hide MakeDeployment, MakeService, MakeHpa, MakeIngress, ProxyRoutes, KeyOf, WantsDebug;
  }

  /** `a` and `b` are two states of the object a step of the plan is about: they differ at most in the host
      of an Ingress and, unless these are fixed, the order of the exporter's variables and the account. */
  ghost predicate Alike(i: Input, role: Role, a: Object, b: Object) {
    || a == b
    || (role.Ing? && SameButHost(a, b))
    || (role.Dep? && !Fixed(i, role.runner) && SameButOrder(a, b))
  }

  lemma AlikeObjects(i: Input, role: Role, a: Object, b: Object)
    requires a == b || SameButHost(a, b) || SameButOrder(a, b)
    requires (!role.Dep? || Fixed(i, role.runner)) && !role.Ing? ==> a == b
    requires (role.Ing? <==> a.IngressObj?) && (role.Dep? <==> a.DeploymentObj?)
    ensures Alike(i, role, a, b)
  {
    hide Fixed;
  }

  /** Runs from two starting points, each with its own visits and lists, lead to the same managed objects up
      to the host of the Ingress and, where these are not fixed, the order of the exporter's variables and
      the service account. */
  lemma StartDoesNotMatter(i: Input, o: Orders, s: Store, s': Store, role: Role)
    requires NamesOk(i) && role in Roles(i) && OrdersOk(i) && OrdersOk(Revisit(i, o))
    ensures var key := KeyOf(i, role); var r, r' := Run(s, Plan(i)), Run(s', Plan(Revisit(i, o)));
            (key in r <==> key in r') && (key in r ==> Alike(i, role, r[key], r'[key]))
  {
    hide Roles, Run, Plan, KeyOf, NamesOk, StepFor, Settled, SameButHost, SameButOrder, OrdersOk, Fixed, Alike;
    var j := Revisit(i, o);
    var key, r, r' := KeyOf(i, role), Run(s, Plan(i)), Run(s', Plan(j));
    RevisitKeeps(i, o, role);
    Converges(i, s);
    Converges(j, s');
    StepKey(i, role);
    RevisitStep(i, o, role);
    OnlyIngressKeepsHost(i, role);
    SettledAlike(s, r, StepFor(i, role), s', r', StepFor(j, role));
    if key in r {
      KindOfObject(i, role, s, r);
      AlikeObjects(i, role, r[key], r'[key]);
    }
  }

  lemma KindOfObject(i: Input, role: Role, before: Store, store: Store)
    requires Settled(before, store, StepFor(i, role)) && KeyOf(i, role) in store
    ensures role.Ing? <==> store[KeyOf(i, role)].IngressObj?
    ensures role.Dep? <==> store[KeyOf(i, role)].DeploymentObj?
  {
    hide KubeName, ServiceName, ConfigName, KubeLabels, ServiceSelector, PodLabels, RunnerServices, Other, ExporterVars,
         WantsDebug, ContainsStealing, ProxyRoutes, IngressHost;
  }

  // ---------------------------------------------------------------- running again

  /** No part of a second run, with visits `o`, changes what a complete first one left. */
  ghost predicate Quiet(i: Input, o: Orders, store: Store) {
    forall k :: 0 <= k <= |Plan(Revisit(i, o))| ==>
        Run(Run(store, Plan(i)), Plan(Revisit(i, o))[..k]) == Run(store, Plan(i))
  }

  lemma QuietWhenRepeatable(i: Input, o: Orders, store: Store)
    requires NamesOk(i) && OrdersOk(i) && OrdersOk(Revisit(i, o)) && Repeatable(i)
    ensures Quiet(i, o, store)
  {
    hide Roles, StepFor, Settled, Consistent, NamesOk, Run, OrdersOk, Repeatable, Plan;
    RevisitPlan(i, o);
    PlanConsistent(i);
    RunSettles(store, Plan(i));
    forall k | 0 <= k <= |Plan(i)| ensures Run(Run(store, Plan(i)), Plan(i)[..k]) == Run(store, Plan(i)) {
      assert forall m :: 0 <= m < k ==> Plan(i)[..k][m] == Plan(i)[m];
      RunFixed(store, Run(store, Plan(i)), Plan(i)[..k]);
    }
  }

  lemma ProductionPresent(i: Input, r: Option<string>, store: Store)
    requires NamesOk(i) && Known(i.b, r)
    ensures var key := KeyOf(i, Dep(r, false)); var f := Run(store, Plan(i));
            key in f && f[key] == MakeDeployment(i, r, false)
  {
    hide Roles, Run, Plan, NamesOk, MakeDeployment, KeyOf;
    Converges(i, store);
    RolesExact(i, Dep(r, false));
    assert Settled(store, Run(store, Plan(i)), StepFor(i, Dep(r, false)));
  }

  /** Orders that give another Deployment for a component make the second run update it. */
  lemma OtherDeploymentUpdates(i: Input, o: Orders, r: Option<string>, store: Store)
    requires NamesOk(i) && Known(i.b, r)
    requires || ExporterVars(i, r, false) != ExporterVars(Revisit(i, o), r, false)
             || ServiceAccount(i, r, false) != ServiceAccount(Revisit(i, o), r, false)
    ensures !Quiet(i, o, store)
  {
    hide NamesOk, Run, Plan, MakeDeployment, KeyOf, Known, ExporterVars, ServiceAccount;
    var j, first := Revisit(i, o), Run(store, Plan(i));
    RevisitKeeps(i, o, Dep(r, false));
    ProductionPresent(i, r, store);
    RevisitKnown(i, o, r);
    ProductionPresent(j, r, first);
    MadeFromOrders(i, o, r, false);
    assert Run(first, Plan(j)) != first;
    assert Plan(j)[..|Plan(j)|] == Plan(j);
  }

  lemma RevisitKnown(i: Input, o: Orders, r: Option<string>)
    requires Known(i.b, r)
    ensures Known(Revisit(i, o).b, r)
  {}

  /** When the options give different lists, some visit makes the second run update the API server. */
  lemma SomeVisitUpdates(i: Input, store: Store) returns (o: Orders)
    requires NamesOk(i) && OrdersOk(i) && !ExporterFixed(i)
    ensures OrdersOk(Revisit(i, o)) && !Quiet(i, o, store)
  {
    hide Visits, OrderFree, Vars, NamesOk, Run, Plan, Quiet;
    var e := i.d.exporter.value;
    var order := AnotherVisit(i.casing, e, i.orders.production);
    o := i.orders.(production := order);
    VarsDiffer(i.casing, e, i.orders.production, order);
    OtherDeploymentUpdates(i, o, None, store);
  }

  /** When a component leaves the choice between two accounts, some list makes the second run update it. */
  lemma SomeListUpdates(i: Input, r: Option<string>, store: Store) returns (o: Orders)
    requires NamesOk(i) && OrdersOk(i) && Known(i.b, r) && !AccountFixed(i, r)
    ensures OrdersOk(Revisit(i, o)) && !Quiet(i, o, store)
  {
    hide Visits, NamesOk, Run, Plan, Quiet, OwnAccount, HasExporter;
    var a, b :| a in i.accounts && b in i.accounts && a != b;
    var account := if i.orders.accounts[(r, false)] == a then b else a;
    o := i.orders.(accounts := i.orders.accounts[(r, false) := account]);
    OtherDeploymentUpdates(i, o, r, store);
  }

  lemma VarsDiffer(c: Casing, e: Exporter, order: seq<string>, order': seq<string>)
    requires OptionVars(c, e, order') != OptionVars(c, e, order)
    ensures Vars(c, e, order') != Vars(c, e, order)
  {
    hide OptionVars, StructureVars;
    var s, x, y := StructureVars(c, e.structure), OptionVars(c, e, order'), OptionVars(c, e, order);
    assert (s + x)[|s|..] == x && (s + y)[|s|..] == y;
  }

  /** After a complete reconcile a second one with unchanged inputs changes nothing, in whatever order the
      exporter's options are visited and the accounts are listed, exactly when the exporter is off or its
      options that remain all give the same variable, and every component names its service account unless
      there are not two to choose from. */
  lemma IdempotentExact(i: Input, store: Store)
    requires NamesOk(i) && OrdersOk(i)
    ensures (forall o :: OrdersOk(Revisit(i, o)) ==> Quiet(i, o, store)) <==> Repeatable(i)
  {
    hide NamesOk, OrdersOk, Quiet, ExporterFixed, AccountFixed, Known;
    if Repeatable(i) {
      forall o | OrdersOk(Revisit(i, o)) ensures Quiet(i, o, store) { QuietWhenRepeatable(i, o, store); }
    } else {
      var r :| Known(i.b, r) && !Fixed(i, r);
      if AccountFixed(i, r) {
        var o := SomeVisitUpdates(i, store);
      } else {
        var o := SomeListUpdates(i, r, store);
      }
    }
  }

  /** Two ordinary options are enough for a second run to update the API server. */
  lemma TwoOptionsUpdate(i: Input, store: Store) returns (o: Orders)
    requires NamesOk(i) && OrdersOk(i)
    requires i.d.exporter == Some(Exporter(true, [], map["a" := "1", "b" := "2"]))
    ensures OrdersOk(Revisit(i, o)) && !Quiet(i, o, store)
  {
    hide NamesOk, OrdersOk, Quiet;
    TwoOptionsNotFree(i.casing);
    o := SomeVisitUpdates(i, store);
  }

  lemma TwoOptionsNotFree(c: Casing)
    ensures !OrderFree(c, Exporter(true, [], map["a" := "1", "b" := "2"]))
  {
    hide OptionVars, StructureVars;
    var e := Exporter(true, [], map["a" := "1", "b" := "2"]);
    TwoOptionsDisagree(c);
    if OrderFree(c, e) { OrderFreeAgrees(c, e, ["a", "b"], ["b", "a"]); }
  }
}
