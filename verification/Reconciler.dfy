/** The reconcile loop itself, against an API server whose every answer may be an error and which may
    outlive the operator's process. */
module Reconciler {
  import opened Options
  import opened Names
  import opened Desired
  import opened Plans
  import opened Abandonment
  import ExporterEnv

  /** How a call ends: well, with an error, or not at all because the process is gone. */
  datatype Outcome = Ok | Error | Crash

  datatype Condition = Available | BentoFound | BentoRequestFound
  datatype Truth = True | False | Unknown

  type Status = map<Condition, Truth>

  predicate Is(status: Status, c: Condition, t: Truth) { c in status && status[c] == t }

  datatype State = State(store: Store, status: Status)

  /** A BentoRequest: absent, waiting for its Bento, or reporting that there will be none. */
  datatype Request = Missing | Waiting | Unavailable

  /** What is on the other side of the Yatai API, when there is one. */
  datatype Remote = NoYatai | RemoteBentoMissing | Synced

  /** Everything a run can read besides the objects it manages. */
  datatype World = World(
    deployment: Option<Deployment>, bento: Option<Bento>, request: Request, remote: Remote,
    hash: Hash, domainSuffix: string, basePort: int, casing: ExporterEnv.Casing, accounts: set<string>,
    orders: Orders)

  function InputOf(w: World): Input
    requires w.deployment.Some? && w.bento.Some?
  {
    Input(w.deployment.value, w.bento.value, w.hash, w.domainSuffix, w.basePort, w.casing, w.accounts, w.orders)
  }

  // ---------------------------------------------------------------- progress through the plan

  /** `after` continues `before` with the first of `roles`, with all of them if the outcome is `Ok`. */
  predicate Went(before: seq<Role>, after: seq<Role>, roles: seq<Role>, o: Outcome) {
    && |before| <= |after| <= |before| + |roles| && after == (before + roles)[..|after|]
    && (o == Ok ==> after == before + roles)
  }

  lemma WentBoth(a: seq<Role>, b: seq<Role>, c: seq<Role>, s: seq<Role>, t: seq<Role>, o: Outcome)
    requires Went(a, b, s, Ok) && Went(b, c, t, o)
    ensures Went(a, c, s + t, o)
  {
    assert a + s + t == a + (s + t);
  }

  lemma WentPart(a: seq<Role>, b: seq<Role>, s: seq<Role>, t: seq<Role>, o: Outcome)
    requires Went(a, b, s, o) && o != Ok
    ensures Went(a, b, s + t, o)
  {
    assert (a + (s + t))[..|b|] == (a + s)[..|b|] by { assert a + (s + t) == (a + s) + t; }
  }

  lemma WentNowhere(a: seq<Role>, roles: seq<Role>, o: Outcome)
    requires o != Ok || roles == []
    ensures Went(a, a, roles, o)
  {}

  /** The run so far: `trail` are the steps taken from `start`, `writes` the objects written. */
  ghost predicate Tracked(i: Input, start: Store, trail: seq<Role>, store: Store, writes: nat) {
    && store == Run(start, StepsFor(i, trail))
    && (Undisturbed(i, start, trail) ==> writes == 0)
  }

  /** None of the steps changes anything. */
  ghost predicate Undisturbed(i: Input, start: Store, trail: seq<Role>) {
    forall k :: 0 <= k <= |trail| ==> Run(start, StepsFor(i, trail[..k])) == start
  }

  lemma StepsForMore(i: Input, trail: seq<Role>, role: Role)
    ensures StepsFor(i, trail + [role]) == StepsFor(i, trail) + [StepFor(i, role)]
  {
    hide StepFor;
  }

  /** Taking one more step keeps track, if a step that changes nothing writes nothing. */
  lemma TrackMore(
      i: Input, start: Store, trail: seq<Role>, before: Store, writes: nat, role: Role, after: Store, writes': nat)
    requires Tracked(i, start, trail, before, writes)
    requires after == Effect(before, StepFor(i, role)) && (after == before ==> writes' == writes)
    ensures Tracked(i, start, trail + [role], after, writes')
  {
    hide StepFor, Effect, Run;
    StepsForMore(i, trail, role);
    RunMore(start, StepsFor(i, trail), StepFor(i, role));
    if Undisturbed(i, start, trail + [role]) {
      forall k | 0 <= k <= |trail| ensures Run(start, StepsFor(i, trail[..k])) == start {
        assert (trail + [role])[..k] == trail[..k];
      }
      assert (trail + [role])[..|trail| + 1] == trail + [role] && trail[..|trail|] == trail;
    }
  }

  function DeploymentRoles(d: Deployment, r: Option<string>): seq<Role> {
    if r.None? then ApiDeploymentRoles(d) else [Dep(r, false), Dep(r, true)]
  }

  // ---------------------------------------------------------------- what changed

  /** The object was created, deleted or updated. */
  predicate Changed(before: Store, after: Store, key: Key) {
    !((key in before <==> key in after) && (key in before ==> before[key] == after[key]))
  }

  /** No other object changed. */
  ghost predicate OnlyAt(before: Store, after: Store, key: Key) { forall k :: k != key ==> !Changed(before, after, k) }

  /** No other Deployment changed. */
  ghost predicate OnlyDeployment(before: Store, after: Store, key: Key) {
    forall k: Key :: k.kind == DeploymentKind && k != key ==> !Changed(before, after, k)
  }

  lemma ChangedIsDifferent(before: Store, after: Store, key: Key)
    requires OnlyAt(before, after, key)
    ensures before != after <==> Changed(before, after, key)
  {
    if !Changed(before, after, key) {
      forall k ensures (k in before <==> k in after) && (k in before ==> before[k] == after[k]) {
        assert !Changed(before, after, k);
      }
      assert before == after;
    }
  }

  lemma StepIsLocal(before: Store, after: Store, step: Step)
    requires after == before || after == Effect(before, step)
    ensures OnlyAt(before, after, step.key)
  {}

  /** A change of a ConfigMap in front of one of a Deployment. */
  lemma ConfigFirst(i: Input, debug: bool, r: Option<string>, a: Store, b: Store, c: Store)
    requires OnlyAt(a, b, KeyOf(i, Cfg(debug))) && OnlyAt(b, c, KeyOf(i, Dep(r, debug)))
    ensures OnlyDeployment(a, c, KeyOf(i, Dep(r, debug)))
    ensures Changed(a, c, KeyOf(i, Dep(r, debug))) <==> Changed(b, c, KeyOf(i, Dep(r, debug)))
  {
    hide KubeName, ConfigName;
    var cfg, dep := KeyOf(i, Cfg(debug)), KeyOf(i, Dep(r, debug));
    assert cfg.kind == ConfigMapKind && dep.kind == DeploymentKind;
    assert !Changed(a, b, dep);
    forall k: Key | k.kind == DeploymentKind && k != dep ensures !Changed(a, c, k) {
      assert !Changed(a, b, k) && !Changed(b, c, k);
    }
  }

  lemma OnlyAtDeployment(i: Input, r: Option<string>, debug: bool, a: Store, b: Store)
    requires OnlyAt(a, b, KeyOf(i, Dep(r, debug)))
    ensures OnlyDeployment(a, b, KeyOf(i, Dep(r, debug)))
  {
    hide Changed, KeyOf;
  }

  /** Changes of the production and then of the debug Deployment are told apart. */
  lemma DeploymentsApart(i: Input, r: Option<string>, a: Store, b: Store, c: Store)
    requires OnlyDeployment(a, b, KeyOf(i, Dep(r, false))) && OnlyDeployment(b, c, KeyOf(i, Dep(r, true)))
    ensures Changed(a, c, KeyOf(i, Dep(r, false))) <==> Changed(a, b, KeyOf(i, Dep(r, false)))
    ensures Changed(a, c, KeyOf(i, Dep(r, true))) <==> Changed(b, c, KeyOf(i, Dep(r, true)))
  {
    hide KubeName;
    var p, d := KeyOf(i, Dep(r, false)), KeyOf(i, Dep(r, true));
    assert p.kind == DeploymentKind && d.kind == DeploymentKind;
    assert p != d by { DebugNameLonger(i, r); }
    assert !Changed(b, c, p) && !Changed(a, b, d);
  }

  /** The three Services of a component are different objects. */
  predicate ServicesDistinct(i: Input, r: Option<string>) {
    var x, y, z := KeyOf(i, Svc(r, Generic)), KeyOf(i, Svc(r, Production)), KeyOf(i, Svc(r, Variant.Debug));
    x != y && x != z && y != z
  }

  /** Then a change of one of them remains. */
  lemma ServicesApart(i: Input, r: Option<string>, a: Store, b: Store, c: Store, d: Store)
    requires ServicesDistinct(i, r)
    requires OnlyAt(a, b, KeyOf(i, Svc(r, Generic))) && OnlyAt(b, c, KeyOf(i, Svc(r, Production)))
    requires OnlyAt(c, d, KeyOf(i, Svc(r, Variant.Debug)))
    ensures a != d <==> a != b || b != c || c != d
  {
    hide KeyOf;
    var x, y, z := KeyOf(i, Svc(r, Generic)), KeyOf(i, Svc(r, Production)), KeyOf(i, Svc(r, Variant.Debug));
    ChangedIsDifferent(a, b, x);
    ChangedIsDifferent(b, c, y);
    ChangedIsDifferent(c, d, z);
    assert !Changed(b, c, x) && !Changed(c, d, x) && !Changed(c, d, y) && !Changed(a, b, y);
    assert !Changed(a, b, z) && !Changed(b, c, z);
  }

  lemma DebugNameLonger(i: Input, r: Option<string>)
    ensures KubeName(i.d.name, i.b, r, false) != KubeName(i.d.name, i.b, r, true)
  {
    hide Decimal, FirstIndex;
    assert |KubeName(i.d.name, i.b, r, true)| == |KubeName(i.d.name, i.b, r, false)| + 2;
  }

  class Controller {
    var store: Store
    var status: Status
    // The current run: where it started, the steps taken, the writes made, the calls that failed.
    ghost var start: Store
    ghost var trail: seq<Role>
    ghost var writes: nat
    ghost var failures: nat

    constructor (store: Store, status: Status)
      ensures this.store == store && this.status == status
    {
      this.store, this.status := store, status;
    }

    ghost predicate Valid(i: Input)
      reads this
    {
      Tracked(i, start, trail, store, writes)
    }

    // -------------------------------------------------------------- the API server

    method Fail() returns (o: Outcome)
      modifies this`failures
      ensures o != Ok && failures == old(failures) + 1
    {
      failures := failures + 1;
      if * { o := Error; } else { o := Crash; }
    }

    /** Anything that can fail without touching a managed object. */
    method Call() returns (o: Outcome)
      modifies this`failures
      ensures if o == Ok then failures == old(failures) else failures > old(failures)
    {
      o := Ok;
      if * { o := Fail(); }
    }

    method Get(key: Key) returns (o: Outcome, found: Option<Object>)
      modifies this`failures
      ensures if o == Ok then failures == old(failures) else failures > old(failures)
      ensures o == Ok ==> found == if key in store then Some(store[key]) else None
    {
      o := Call();
      found := if key in store then Some(store[key]) else None;
    }

    /** Create or Update; one that fails may have been applied all the same. */
    method Put(key: Key, obj: Object) returns (o: Outcome)
      modifies this`store, this`writes, this`failures
      ensures if o == Ok then failures == old(failures) else failures > old(failures)
      ensures (store == old(store)[key := obj] && writes == old(writes) + 1)
              || (o != Ok && store == old(store) && writes == old(writes))
    {
      o := Call();
      var applied: bool := *;
      if o == Ok || applied {
        store, writes := store[key := obj], writes + 1;
      }
    }

    method Delete(key: Key) returns (o: Outcome)
      modifies this`store, this`writes, this`failures
      ensures if o == Ok then failures == old(failures) else failures > old(failures)
      ensures (store == old(store) - {key} && writes == old(writes) + 1)
              || (o != Ok && store == old(store) && writes == old(writes))
    {
      o := Call();
      var applied: bool := *;
      if o == Ok || applied {
        store, writes := store - {key}, writes + 1;
      }
    }

    // -------------------------------------------------------------- one object

    /** Create the object, or update it when it differs. */
    method CreateOrUpdate(key: Key, obj: Object) returns (o: Outcome, modified: bool)
      modifies this`store, this`writes, this`failures
      ensures if o == Ok then failures == old(failures) else failures > old(failures)
      ensures store == old(store)[key := obj] || (o != Ok && store == old(store))
      ensures store == old(store) ==> writes == old(writes)
      ensures o == Ok ==> (modified <==> store != old(store))
    {
      modified := false;
      var found;
      o, found := Get(key);
      if o == Ok && found != Some(obj) {
        o := Put(key, obj);
        assert store == old(store) || store[key] == obj;
        modified := o == Ok;
      }
    }

    method DeleteIfFound(key: Key) returns (o: Outcome, modified: bool)
      modifies this`store, this`writes, this`failures
      ensures if o == Ok then failures == old(failures) else failures > old(failures)
      ensures store == old(store) - {key} || (o != Ok && store == old(store))
      ensures store == old(store) ==> writes == old(writes)
      ensures o == Ok ==> (modified <==> store != old(store))
    {
      modified := false;
      var found;
      o, found := Get(key);
      if o == Ok && found.Some? {
        o := Delete(key);
        modified := o == Ok;
      }
    }

    /** Take the step of creating or updating one object, if it can be generated. */
    method Apply(i: Input, role: Role, key: Key, obj: Object) returns (o: Outcome, modified: bool)
      requires Valid(i) && StepFor(i, role) == Step.Apply(key, obj)
      modifies this`store, this`trail, this`writes, this`failures
      ensures Valid(i) && Went(old(trail), trail, [role], o)
      ensures if o == Ok then failures == old(failures) else failures > old(failures)
      ensures OnlyAt(old(store), store, key)
      ensures o == Ok ==> (modified <==> store != old(store)) && (modified <==> Changed(old(store), store, key))
    {
      hide Run, StepFor, OnlyAt, Changed;
      modified := false;
      o := Call();
      if o == Ok { o, modified := CreateOrUpdate(key, obj); }
      StepIsLocal(old(store), store, Step.Apply(key, obj));
      ChangedIsDifferent(old(store), store, key);
      Advance(i, role, old(store), old(writes), o);
    }

    method Remove(i: Input, role: Role, key: Key) returns (o: Outcome, modified: bool)
      requires Valid(i) && StepFor(i, role) == Step.Remove(key)
      modifies this`store, this`trail, this`writes, this`failures
      ensures Valid(i) && Went(old(trail), trail, [role], o)
      ensures if o == Ok then failures == old(failures) else failures > old(failures)
      ensures OnlyAt(old(store), store, key)
      ensures o == Ok ==> (modified <==> store != old(store)) && (modified <==> Changed(old(store), store, key))
    {
      hide Run, StepFor, OnlyAt, Changed;
      o, modified := DeleteIfFound(key);
      StepIsLocal(old(store), store, Step.Remove(key));
      ChangedIsDifferent(old(store), store, key);
      Advance(i, role, old(store), old(writes), o);
    }

    /** Record a step whose effect has taken place. */
    ghost method Advance(i: Input, role: Role, before: Store, writesBefore: nat, o: Outcome)
      requires Tracked(i, start, trail, before, writesBefore)
      requires store == Effect(before, StepFor(i, role)) || (o != Ok && store == before)
      requires store == before ==> writes == writesBefore
      modifies this`trail
      ensures Valid(i) && Went(old(trail), trail, [role], o)
    {
      hide Tracked, StepFor, Effect;
      if store == Effect(before, StepFor(i, role)) {
        TrackMore(i, start, trail, before, writesBefore, role, store, writes);
        trail := trail + [role];
      } else {
        WentNowhere(trail, [role], o);
      }
    }

    // -------------------------------------------------------------- Deployments

    /** Generating a Deployment of the API server writes the ConfigMap of its proxy, which `modified` does
        not count. */
    method CreateOrUpdateDeployment(i: Input, r: Option<string>, debug: bool) returns (o: Outcome, modified: bool)
      requires Valid(i) && (debug ==> WantsDebug(i.d, r))
      modifies this`store, this`trail, this`writes, this`failures
      ensures Valid(i) && Went(old(trail), trail, (if r.None? then [Cfg(debug)] else []) + [Dep(r, debug)], o)
      ensures if o == Ok then failures == old(failures) else failures > old(failures)
      ensures o == Ok ==> OnlyDeployment(old(store), store, KeyOf(i, Dep(r, debug)))
      ensures o == Ok ==> (modified <==> Changed(old(store), store, KeyOf(i, Dep(r, debug))))
    {
      hide Tracked, MakeDeployment, ProxyRoutes, WantsDebug, KeyOf, Went, OnlyAt, OnlyDeployment, Changed;
      var roles := if r.None? then [Cfg(debug)] else [];
      o, modified := Ok, false;
      WentNowhere(trail, [], Ok);
      if r.None? {
        o, modified := Apply(i, Cfg(debug), KeyOf(i, Cfg(debug)), ConfigObj(ProxyRoutes(i, debug)));
        if o != Ok {
          WentPart(old(trail), trail, roles, [Dep(r, debug)], o);
          return;
        }
      }
      ghost var mid, before := trail, store;
      o, modified := Apply(i, Dep(r, debug), KeyOf(i, Dep(r, debug)), MakeDeployment(i, r, debug));
      WentBoth(old(trail), mid, trail, roles, [Dep(r, debug)], o);
      if r.None? {
        ConfigFirst(i, debug, r, old(store), before, store);
      } else {
        OnlyAtDeployment(i, r, debug, old(store), store);
      }
    }

    /** While debugging is wanted `modified` speaks of the debug Deployment alone: the second result replaces
        the first. */
    method CreateOrUpdateOrDeleteDeployments(i: Input, r: Option<string>) returns (o: Outcome, modified: bool)
      requires Valid(i)
      modifies this`store, this`trail, this`writes, this`failures
      ensures Valid(i) && Went(old(trail), trail, DeploymentRoles(i.d, r), o)
      ensures if o == Ok then failures == old(failures) else failures > old(failures)
      ensures o == Ok ==>
                (modified <==> Changed(old(store), store, KeyOf(i, Dep(r, true)))
                               || (!WantsDebug(i.d, r) && Changed(old(store), store, KeyOf(i, Dep(r, false)))))
    {
      hide Tracked, MakeDeployment, ProxyRoutes, WantsDebug, KeyOf, Went, OnlyAt, OnlyDeployment, Changed;
      ghost var first := (if r.None? then [Cfg(false)] else []) + [Dep(r, false)];
      ghost var second := (if r.None? && WantsDebug(i.d, r) then [Cfg(true)] else []) + [Dep(r, true)];
      assert first + second == DeploymentRoles(i.d, r);
      o, modified := CreateOrUpdateDeployment(i, r, false);
      if o != Ok {
        WentPart(old(trail), trail, first, second, o);
        return;
      }
      ghost var mid, before := trail, store;
      if WantsDebug(i.d, r) {
        o, modified := CreateOrUpdateDeployment(i, r, true);
        assert second == (if r.None? then [Cfg(true)] else []) + [Dep(r, true)];
      } else {
        var deleted;
        o, deleted := Remove(i, Dep(r, true), KeyOf(i, Dep(r, true)));
        modified := modified || deleted;
        OnlyAtDeployment(i, r, true, before, store);
        assert second == [Dep(r, true)];
      }
      WentBoth(old(trail), mid, trail, first, second, o);
      if o == Ok { DeploymentsApart(i, r, old(store), before, store); }
    }

    // -------------------------------------------------------------- HPAs and Services

    method CreateOrUpdateHPA(i: Input, r: Option<string>) returns (o: Outcome, modified: bool)
      requires Valid(i)
      modifies this`store, this`trail, this`writes, this`failures
      ensures Valid(i) && Went(old(trail), trail, [Hpa(r)], o)
      ensures if o == Ok then failures == old(failures) else failures > old(failures)
      ensures o == Ok ==> (modified <==> store != old(store))
    {
      hide Tracked, MakeHpa, KeyOf, Went;
      o, modified := Apply(i, Hpa(r), KeyOf(i, Hpa(r)), MakeHpa(i, r));
    }

    /** The generic Service always; the production and debug Services while debugging is wanted. */
    method CreateOrUpdateOrDeleteServices(i: Input, r: Option<string>) returns (o: Outcome, modified: bool)
      requires Valid(i)
      modifies this`store, this`trail, this`writes, this`failures
      ensures Valid(i) && Went(old(trail), trail, ServiceRoles(r), o)
      ensures if o == Ok then failures == old(failures) else failures > old(failures)
      ensures o == Ok && !modified ==> store == old(store)
      ensures o == Ok && ServicesDistinct(i, r) ==> (modified <==> store != old(store))
    {
      hide Tracked, MakeService, WantsDebug, KeyOf, Went, OnlyAt, ServicesDistinct;
      ghost var generic, production, debug := Svc(r, Generic), Svc(r, Production), Svc(r, Variant.Debug);
      assert [generic] + [production] + [debug] == ServiceRoles(r);
      assert [generic] + [production, debug] == ServiceRoles(r);
      o, modified := Apply(i, Svc(r, Generic), KeyOf(i, Svc(r, Generic)), MakeService(i, r, Generic));
      if o != Ok {
        WentPart(old(trail), trail, [generic], [production, debug], o);
        return;
      }
      ghost var mid, second := trail, store;
      var modified_;
      if WantsDebug(i.d, r) {
        o, modified_ := Apply(i, Svc(r, Production), KeyOf(i, Svc(r, Production)), MakeService(i, r, Production));
      } else {
        o, modified_ := Remove(i, Svc(r, Production), KeyOf(i, Svc(r, Production)));
      }
      WentBoth(old(trail), mid, trail, [generic], [production], o);
      modified := modified || modified_;
      if o != Ok {
        WentPart(old(trail), trail, [generic] + [production], [debug], o);
        return;
      }
      mid := trail;
      ghost var third := store;
      if WantsDebug(i.d, r) {
        o, modified_ := Apply(
          i, Svc(r, Variant.Debug), KeyOf(i, Svc(r, Variant.Debug)), MakeService(i, r, Variant.Debug));
      } else {
        o, modified_ := Remove(i, Svc(r, Variant.Debug), KeyOf(i, Svc(r, Variant.Debug)));
      }
      WentBoth(old(trail), mid, trail, [generic] + [production], [debug], o);
      modified := modified || modified_;
      if ServicesDistinct(i, r) { ServicesApart(i, r, old(store), second, third, store); }
    }

    // -------------------------------------------------------------- the Ingress

    /** A found Ingress keeps its host, or goes away when ingress is disabled. */
    method CreateOrUpdateIngresses(i: Input) returns (o: Outcome, modified: bool)
      requires Valid(i)
      modifies this`store, this`trail, this`writes, this`failures
      ensures Valid(i) && Went(old(trail), trail, [Ing], o)
      ensures if o == Ok then failures == old(failures) else failures > old(failures)
      ensures o == Ok ==> (modified <==> store != old(store))
    {
      hide Tracked, MakeIngress, KeyOf, Went;
      var key, ingress := KeyOf(i, Ing), MakeIngress(i);
      modified := false;
      o := Call();
      if o == Ok {
        var found;
        o, found := Get(key);
        if o == Ok {
          if found.None? {
            if i.d.ingressEnabled {
              o := Put(key, ingress);
              modified := true;
            }
          } else if !i.d.ingressEnabled {
            o := Delete(key);
            modified := true;
          } else {
            var kept := KeepHost(store, key, ingress);
            if found != Some(kept) {
              o := Put(key, kept);
              modified := true;
            }
          }
        }
      }
      Advance(i, Ing, old(store), old(writes), o);
    }

    // -------------------------------------------------------------- status

    method PutStatus(next: Status) returns (o: Outcome)
      modifies this`status, this`failures
      ensures if o == Ok then failures == old(failures) else failures > old(failures)
      ensures status == next || (o != Ok && status == old(status))
    {
      o := Call();
      var applied: bool := *;
      if o == Ok || applied { status := next; }
    }

    /** Set conditions, in at most three attempts; each may have been applied even when it failed. */
    method SetStatusConditions(conditions: Status) returns (o: Outcome)
      modifies this`status, this`failures
      ensures failures >= old(failures) && (o != Ok ==> failures > old(failures))
      ensures status == old(status) + conditions || (o != Ok && status == old(status))
    {
      o := Error;
      var n := 0;
      while n < 3
        invariant 0 <= n <= 3 && failures >= old(failures) + n
        invariant status == old(status) + conditions || status == old(status)
        invariant o == Error
      {
        o := Call();
        if o != Ok { return; }
        o := PutStatus(status + conditions);
        if o == Ok { break; }
        if o == Crash { return; }
        n := n + 1;
      }
      if o == Ok { o := Call(); }
    }

    // -------------------------------------------------------------- the steps of a run

    method ReconcileRunner(i: Input, runner: string) returns (o: Outcome)
      requires Valid(i)
      modifies this`store, this`trail, this`writes, this`failures
      ensures Valid(i) && Went(old(trail), trail, RunnerRoles(runner), o)
      ensures if o == Ok then failures == old(failures) else failures > old(failures)
    {
      hide Tracked, Went, KeyOf, ServiceRoles;
      var r, modified := Some(runner), false;
      ghost var first, services := [Dep(r, false), Dep(r, true)], ServiceRoles(r);
      assert first + [Hpa(r)] + services == RunnerRoles(runner);
      assert first + ([Hpa(r)] + services) == RunnerRoles(runner);
      o, modified := CreateOrUpdateOrDeleteDeployments(i, r);
      if o != Ok {
        WentPart(old(trail), trail, first, [Hpa(r)] + services, o);
        return;
      }
      ghost var mid := trail;
      o, modified := CreateOrUpdateHPA(i, r);
      WentBoth(old(trail), mid, trail, first, [Hpa(r)], o);
      if o != Ok {
        WentPart(old(trail), trail, first + [Hpa(r)], services, o);
        return;
      }
      mid := trail;
      o, modified := CreateOrUpdateOrDeleteServices(i, r);
      WentBoth(old(trail), mid, trail, first + [Hpa(r)], services, o);
    }

    method ReconcileRunners(i: Input) returns (o: Outcome)
      requires Valid(i) && trail == []
      modifies this`store, this`trail, this`writes, this`failures
      ensures Valid(i) && Went([], trail, AllRunnerRoles(i.b.runners), o)
      ensures if o == Ok then failures == old(failures) else failures > old(failures)
    {
      hide Tracked, Went, RunnerRoles;
      var runners := i.b.runners;
      o := Ok;
      WentNowhere([], [], Ok);
      for n := 0 to |runners|
        invariant Valid(i) && Went([], trail, AllRunnerRoles(runners[..n]), Ok)
        invariant o == Ok && failures == old(failures)
      {
        ghost var mid := trail;
        o := ReconcileRunner(i, runners[n]);
        WentBoth([], mid, trail, AllRunnerRoles(runners[..n]), RunnerRoles(runners[n]), o);
        RunnerRolesMore(runners, n);
        if o != Ok {
          RunnerRolesPrefix(runners, n + 1, trail, o);
          return;
        }
      }
      assert runners[..|runners|] == runners;
    }

    method ReconcileApiServer(i: Input) returns (o: Outcome)
      requires Valid(i)
      modifies this`store, this`trail, this`writes, this`failures
      ensures Valid(i) && Went(old(trail), trail, ApiRoles(i.d), o)
      ensures if o == Ok then failures == old(failures) else failures > old(failures)
    {
      hide Tracked, Went, KeyOf, ServiceRoles, ApiDeploymentRoles;
      ghost var first, services := ApiDeploymentRoles(i.d), ServiceRoles(None);
      ApiRolesGrouped(i.d);
      var modified;
      o, modified := CreateOrUpdateOrDeleteDeployments(i, None);
      if o != Ok {
        WentPart(old(trail), trail, first, [Hpa(None)] + (services + [Ing]), o);
        return;
      }
      ghost var mid := trail;
      o, modified := CreateOrUpdateHPA(i, None);
      WentBoth(old(trail), mid, trail, first, [Hpa(None)], o);
      if o != Ok {
        WentPart(old(trail), trail, first + [Hpa(None)], services + [Ing], o);
        return;
      }
      mid := trail;
      o, modified := CreateOrUpdateOrDeleteServices(i, None);
      WentBoth(old(trail), mid, trail, first + [Hpa(None)], services, o);
      if o != Ok {
        WentPart(old(trail), trail, first + [Hpa(None)] + services, [Ing], o);
        return;
      }
      mid := trail;
      o, modified := CreateOrUpdateIngresses(i);
      WentBoth(old(trail), mid, trail, first + [Hpa(None)] + services, [Ing], o);
    }

    // -------------------------------------------------------------- a run

    /** Everything once the Bento is there, up to reporting the BentoDeployment as available. */
    method ReconcileObjects(w: World, i: Input) returns (o: Outcome)
      requires Valid(i) && trail == []
      modifies this
      ensures start == old(start) && Valid(i) && trail <= Roles(i)
      ensures o == Ok ==> trail == Roles(i) && status == old(status) + map[Available := True]
      ensures status == old(status) || (trail == Roles(i) && status == old(status) + map[Available := True])
      ensures failures >= old(failures) && (o != Ok ==> failures > old(failures))
    {
      hide Tracked, KeyOf, ApiRoles, AllRunnerRoles;
      o := ReconcileRunners(i);
      if o != Ok { return; }
      ghost var mid := trail;
      o := ReconcileApiServer(i);
      if o != Ok { return; }
      if !w.remote.NoYatai? {
        o := Call();
        if o != Ok { return; }
        if w.remote.Synced? {
          o := Call();
          if o != Ok { return; }
        }
      }
      o := SetStatusConditions(map[Available := True]);
    }

    /** While there is no Bento, say whether it has been requested. */
    method AwaitBento(w: World) returns (o: Outcome)
      modifies this`status, this`failures
      ensures Awaited(w, old(status), status, o, failures == 0) && failures >= old(failures)
    {
      hide NeverBetter;
      ghost var mid := status;
      NotBetter(mid, mid, mid);
      o := SetStatusConditions(map[BentoFound := False]);
      NotBetter(old(status), old(status), status);
      if o != Ok { return; }
      mid := status;
      if !Is(status, BentoRequestFound, Unknown) {
        o := SetStatusConditions(map[BentoRequestFound := Unknown]);
        NotBetter(old(status), mid, status);
        if o != Ok { return; }
      }
      mid := status;
      o := AwaitRequest(w);
      AwaitedMore(w, old(status), mid, status, o, failures == 0);
    }

    method AwaitRequest(w: World) returns (o: Outcome)
      requires Is(status, BentoFound, False)
      modifies this`status, this`failures
      ensures Awaited(w, old(status), status, o, failures == 0) && failures >= old(failures)
    {
      var got := Call();
      if got == Crash { return Crash; }
      var present := got == Ok && !w.request.Missing?;
      if !present {
        o := SetStatusConditions(map[BentoFound := False, BentoRequestFound := False]);
        if o != Ok { return; }
      }
      // The error has been overwritten: an absent BentoRequest is reported as found.
      o := SetStatusConditions(map[BentoRequestFound := True]);
      if o != Ok { return; }
      if present && w.request.Unavailable? {
        o := SetStatusConditions(map[BentoFound := False, Available := False]);
        if o == Ok { o := Error; }
      }
    }

    method Body(w: World) returns (o: Outcome)
      requires w.deployment.Some? && trail == [] && store == start && writes == 0
      modifies this
      ensures start == old(start)
      ensures w.bento.None? ==>
                store == start && trail == [] && writes == 0 && Awaited(w, old(status), status, o, failures == 0)
      ensures w.bento.Some? ==>
                var i := InputOf(w);
                Valid(i) && trail <= Roles(i) && Reports(old(status), status, trail == [], trail == Roles(i), o)
      ensures failures >= old(failures) && (w.bento.Some? && o != Ok ==> failures > old(failures))
    {
      hide Tracked, Is, Awaited, Reports, Roles;
      if w.bento.Some? { TrackNothing(InputOf(w), store); }
      o := Call();
      if o == Ok { o := Call(); }
      if o != Ok {
        AwaitedNothing(w, status, o);
        ReportsNothing(status, w.bento.Some? && [] == Roles(InputOf(w)), o);
        return;
      }
      if w.bento.None? {
        o := AwaitBento(w);
      } else {
        var i := InputOf(w);
        o := SetStatusConditions(map[BentoFound := True]);
        ghost var mid := status;
        if o == Ok { o := ReconcileObjects(w, i); }
        ReportsMore(old(status), mid, status, trail == [], trail == Roles(i), o);
      }
    }

    // -------------------------------------------------------------- the clean-up of runner Services

    /** Delete the abandoned runner Services of one namespace. */
    method CleanUpNamespace(namespace: string, pods: set<Pod>, aged: set<Key>, runnerKey: string) returns (o: Outcome)
      modifies this`store, this`writes, this`failures
      ensures Pruned(old(store), store, {namespace}, pods, aged, runnerKey)
      ensures o == Ok ==> Clean(old(store), store, {namespace}, pods, aged, runnerKey)
      ensures if o == Ok then failures == old(failures) else failures > old(failures)
    {
      hide Abandoned, Listed, Pruned, Clean;
      o := Call();
      NothingPruned(store, {namespace}, pods, aged, runnerKey);
      if o != Ok { return; }
      var todo := set key | key in store && key.namespace == namespace && Listed(store, key, runnerKey);
      OthersClean(store, todo, namespace, pods, aged, runnerKey);
      while todo != {}
        invariant o == Ok && failures == old(failures) && Pruned(old(store), store, {namespace}, pods, aged, runnerKey)
        invariant CleanBut(old(store), store, todo, namespace, pods, aged, runnerKey)
        invariant forall key :: key in todo ==>
            key in old(store) && key in store && key.namespace == namespace && Listed(old(store), key, runnerKey)
        decreases |todo|
      {
        var key :| key in todo;
        todo := todo - {key};
        o := Call();
        if o != Ok { return; }
        IsAbandoned(old(store), store, key, namespace, pods, aged, runnerKey);
        if (exists pod :: pod in pods && Backs(store, key, pod)) || key !in aged {
          NextKey(old(store), store, store, todo, key, namespace, pods, aged, runnerKey);
          continue;
        }
        ghost var before := store;
        o := Delete(key);
        MorePruned(old(store), before, store, key, namespace, pods, aged, runnerKey);
        if o != Ok { return; }
        NextKey(old(store), before, store, todo, key, namespace, pods, aged, runnerKey);
      }
      AllClean(old(store), store, namespace, pods, aged, runnerKey);
    }

    /** Delete the abandoned runner Services of some namespaces. */
    method CleanUp(namespaces: seq<string>, pods: set<Pod>, aged: set<Key>, runnerKey: string) returns (o: Outcome)
      modifies this`store, this`writes, this`failures
      ensures Pruned(old(store), store, Elements(namespaces), pods, aged, runnerKey)
      ensures o == Ok ==> Clean(old(store), store, Elements(namespaces), pods, aged, runnerKey)
      ensures if o == Ok then failures == old(failures) else failures > old(failures)
    {
      hide Pruned, Clean;
      o := Ok;
      ghost var all := Elements(namespaces);
      assert Elements(namespaces[..0]) == {};
      NothingPruned(store, all, pods, aged, runnerKey);
      NothingPruned(store, {}, pods, aged, runnerKey);
      for n := 0 to |namespaces|
        invariant o == Ok && failures == old(failures) && Pruned(old(store), store, all, pods, aged, runnerKey)
        invariant Clean(old(store), store, Elements(namespaces[..n]), pods, aged, runnerKey)
      {
        ghost var before := store;
        o := CleanUpNamespace(namespaces[n], pods, aged, runnerKey);
        PrunedTwice(old(store), before, store, all, namespaces[n], pods, aged, runnerKey);
        if o != Ok { return; }
        CleanTwice(old(store), before, store, all, Elements(namespaces[..n]), namespaces[n], pods, aged, runnerKey);
        assert (Elements(namespaces[..n])) + {namespaces[n]} == Elements(namespaces[..n + 1]);
      }
      assert namespaces[..|namespaces|] == namespaces;
    }

    /** One run. An error after the status is initialised ends up in the status, and is returned only if that
        fails as well. */
    method Reconcile(w: World) returns (o: Outcome)
      modifies this
      ensures RunsTo(w, State(old(store), old(status)), State(store, status), o)
      ensures failures == 0 ==> Succeeds(w, State(old(store), old(status)), State(store, status), o)
      ensures w.deployment.Some? && w.bento.Some? && Undisturbed(InputOf(w), old(store), Roles(InputOf(w))) ==>
          writes == 0
      ensures w.deployment.Some? && w.bento.Some? && failures == 1 && o == Error ==>
          store == old(store) && (status == old(status) || status == Started(old(status)))
    {
      hide Tracked, Roles, Is, Undisturbed, Reported, Reports, NeverBetter, Awaited, Started, Succeeds, RunsTo, Run,
           StepsFor;
      start, trail, writes, failures := store, [], 0, 0;
      ghost var first := State(store, status);
      o := Call();
      if o != Ok || w.deployment.None? {
        NothingYet(w, first, status, o);
        return;
      }
      if status == map[] {
        o := SetStatusConditions(map[Available := Unknown, BentoFound := Unknown]);
        BeganWith(first.status, status);
        if o != Ok {
          NothingYet(w, first, status, o);
          return;
        }
      } else {
        BeganWith(first.status, status);
      }
      o := Body(w);
      ghost var body, reported, well := o, status, failures == 0;
      if o == Error { o := SetStatusConditions(map[Available := False]); }
      if w.bento.Some? {
        var i := InputOf(w);
        TrailDone(i, first.store, trail, store, writes);
        Concludes(first.status, reported, status, trail == [], trail == Roles(i), body, o);
        WentTo(w, first, State(store, status), o, |trail|);
        if failures == 0 { WentWell(w, first, State(store, status), trail == [], trail == Roles(i)); }
      } else {
        ConcludesWithout(w, first, reported, State(store, status), body, o, well);
        if failures == 0 { AwaitedWell(w, first, reported, State(store, status), body, o); }
      }
    }
  }

  /** Nothing is reported that was not reported before, except that something is missing. */
  predicate NeverBetter(before: Status, after: Status) {
    && (Is(after, Available, True) ==> Is(before, Available, True))
    && (Is(after, BentoFound, True) ==> Is(before, BentoFound, True))
  }

  /** What is said of the Bento and its BentoRequest while there is none, and in the end also of the
      BentoDeployment if there will be none. */
  predicate Awaited(w: World, before: Status, after: Status, o: Outcome, well: bool) {
    && NeverBetter(before, after)
    && (o == Ok ==> after == before + map[BentoFound := False, BentoRequestFound := True])
    && (well && !w.request.Unavailable? ==> o == Ok)
    && (well && w.request.Unavailable? ==>
          o == Error && after == before + map[BentoFound := False, BentoRequestFound := True, Available := False])
  }

  lemma AwaitedMore(w: World, before: Status, mid: Status, after: Status, o: Outcome, well: bool)
    requires Awaited(w, mid, after, o, well) && NeverBetter(before, mid)
    requires mid == before + map[BentoFound := False]
             || mid == before + map[BentoFound := False] + map[BentoRequestFound := Unknown]
    ensures Awaited(w, before, after, o, well)
  {}

  lemma AwaitedNothing(w: World, status: Status, o: Outcome)
    requires o != Ok
    ensures Awaited(w, status, status, o, false)
  {}

  lemma NotBetter(before: Status, mid: Status, after: Status)
    requires before == mid || NeverBetter(before, mid)
    requires after == mid || after == mid + map[BentoFound := False]
             || after == mid + map[BentoRequestFound := Unknown]
    ensures NeverBetter(before, after)
  {}

  /** With the Bento there a run reports it as found before the first step and the BentoDeployment as
      available after the last one, and reports nothing else. */
  predicate Reports(before: Status, after: Status, atStart: bool, atEnd: bool, o: Outcome) {
    || (atStart && o != Ok && after == before)
    || (o != Ok && after == before + map[BentoFound := True])
    || (atEnd && after == before + map[BentoFound := True, Available := True])
  }

  lemma ReportsNothing(status: Status, atEnd: bool, o: Outcome)
    requires o != Ok
    ensures Reports(status, status, true, atEnd, o)
  {}

  lemma ReportsMore(before: Status, mid: Status, after: Status, atStart: bool, atEnd: bool, o: Outcome)
    requires mid == before + map[BentoFound := True] || (mid == before && atStart && o != Ok && after == mid)
    requires (after == mid && o != Ok) || (atEnd && after == mid + map[Available := True])
    ensures Reports(before, after, atStart, atEnd, o)
  {
    var found: Status := map[BentoFound := True];
    assert before + found + map[Available := True] == before + map[BentoFound := True, Available := True];
  }

  /** The conditions once a run has begun: a first run marks them as unknown. */
  function Started(status: Status): Status {
    if status == map[] then map[Available := Unknown, BentoFound := Unknown] else status
  }

  /** What a run may do to the objects and the status. */
  ghost predicate RunsTo(w: World, before: State, after: State, o: Outcome) {
    if w.deployment.None? then after == before
    else if w.bento.None? then
      && after.store == before.store && NeverBetter(before.status, after.status)
      && (o == Ok ==>
            || Is(after.status, Available, False)
            || after.status == Started(before.status) + map[BentoFound := False, BentoRequestFound := True])
    else
      exists done: nat :: RunsPart(Plan(InputOf(w)), before, after, o, done)
  }

  /** A run that took the first `done` steps of the plan. */
  ghost predicate RunsPart(plan: seq<Step>, before: State, after: State, o: Outcome, done: nat) {
    && done <= |plan| && after.store == Run(before.store, plan[..done])
    && Reported(before.status, after.status, done == 0, done == |plan|, o)
  }

  /** As `Reports`, from the start of a run to its end, where an error is reported as Available=False. */
  predicate Reported(before: Status, after: Status, atStart: bool, atEnd: bool, o: Outcome) {
    var found := Started(before) + map[BentoFound := True];
    || (atStart && o != Ok && (after == before || after == Started(before)))
    || (atStart && after == Started(before) + map[Available := False])
    || (o != Ok && after == found)
    || after == found + map[Available := False]
    || (atEnd && after == found + map[Available := True])
  }

  /** BentoFound=True is reported from the first step on; Available=True is new only after the last one; and
      without an error it is one or the other. */
  lemma ReportedMeans(before: Status, after: Status, atStart: bool, atEnd: bool, o: Outcome)
    requires Reported(before, after, atStart, atEnd, o)
    ensures !atStart ==> Is(after, BentoFound, True)
    ensures Is(after, Available, True) ==> atEnd || Is(before, Available, True)
    ensures o == Ok ==> Is(after, Available, False) || (Is(after, Available, True) && atEnd)
    ensures o == Ok && Is(after, Available, True) ==> Is(after, BentoFound, True)
  {}

  /** What a run does when no call fails. */
  ghost predicate Succeeds(w: World, before: State, after: State, o: Outcome) {
    w.deployment.Some? ==>
      && o == Ok
      && after.store == (if w.bento.Some? then Run(before.store, Plan(InputOf(w))) else before.store)
      && after.status == Started(before.status) +
         if w.bento.Some? then map[BentoFound := True, Available := True]
         else if w.request.Unavailable?
         then map[BentoFound := False, BentoRequestFound := True, Available := False]
         else map[BentoFound := False, BentoRequestFound := True]
  }

  lemma TrackNothing(i: Input, store: Store)
    ensures Tracked(i, store, [], store, 0)
  {}

  /** A run that has done nothing but mark conditions as unknown. */
  lemma NothingYet(w: World, before: State, status: Status, o: Outcome)
    requires w.deployment.None? || o != Ok
    requires status == before.status || (w.deployment.Some? && status == Started(before.status))
    ensures RunsTo(w, before, State(before.store, status), o)
    ensures w.deployment.None? ==> Succeeds(w, before, State(before.store, status), o)
  {
    if w.deployment.Some? && w.bento.Some? {
      assert RunsPart(Plan(InputOf(w)), before, State(before.store, status), o, 0) by { hide Plan; }
    }
  }

  lemma WentTo(w: World, before: State, after: State, o: Outcome, done: nat)
    requires w.deployment.Some? && w.bento.Some? && RunsPart(Plan(InputOf(w)), before, after, o, done)
    ensures RunsTo(w, before, after, o)
  {
    hide Plan, RunsPart;
  }

  lemma Concludes(
      before: Status, reported: Status, after: Status, atStart: bool, atEnd: bool, o: Outcome, o': Outcome)
    requires Reports(Started(before), reported, atStart, atEnd, o)
    requires if o == Error then after == reported + map[Available := False] || (o' != Ok && after == reported)
             else o' == o && after == reported
    ensures Reported(before, after, atStart, atEnd, o')
  {
    hide Started;
    var s := Started(before);
    assert s + map[BentoFound := True] + map[Available := True] + map[Available := False]
        == s + map[BentoFound := True] + map[Available := False];
    assert s + map[BentoFound := True, Available := True] == s + map[BentoFound := True] + map[Available := True];
  }

  lemma ConcludesWithout(
      w: World, before: State, reported: Status, after: State, o: Outcome, o': Outcome, well: bool)
    requires w.deployment.Some? && w.bento.None? && after.store == before.store
    requires Awaited(w, Started(before.status), reported, o, well)
    requires if o == Error
             then after.status == reported + map[Available := False] || (o' != Ok && after.status == reported)
             else o' == o && after.status == reported
    ensures RunsTo(w, before, after, o')
  {
    hide Plan, Run;
  }

  lemma BeganWith(before: Status, status: Status)
    ensures status == before && before != map[] ==> status == Started(before)
    ensures before == map[] && status == before + map[Available := Unknown, BentoFound := Unknown] ==>
              status == Started(before)
  {}

  lemma WentWell(w: World, before: State, after: State, atStart: bool, atEnd: bool)
    requires w.deployment.Some? && w.bento.Some? && Reports(Started(before.status), after.status, atStart, atEnd, Ok)
    requires atEnd ==> after.store == Run(before.store, Plan(InputOf(w)))
    ensures Succeeds(w, before, after, Ok)
  {
    hide Run, Plan, Started;
  }

  lemma AwaitedWell(w: World, before: State, reported: Status, after: State, o: Outcome, o': Outcome)
    requires w.deployment.Some? && w.bento.None? && after.store == before.store
    requires o' == if o == Error then Ok else o
    requires Awaited(w, Started(before.status), reported, o, true)
    requires if o == Error then after.status == reported + map[Available := False] else after.status == reported
    ensures Succeeds(w, before, after, o')
  {
    hide Run, Plan, Started, NeverBetter;
  }

  lemma StepsForPrefix(i: Input, roles: seq<Role>, k: nat)
    requires k <= |roles|
    ensures StepsFor(i, roles[..k]) == StepsFor(i, roles)[..k]
  {
    hide StepFor;
  }

  /** The steps taken are the first ones of the plan; nothing was written if none of the plan's steps
      changes anything. */
  lemma TrailDone(i: Input, start: Store, trail: seq<Role>, store: Store, writes: nat)
    requires Tracked(i, start, trail, store, writes) && trail <= Roles(i)
    ensures |trail| <= |Plan(i)| && store == Run(start, Plan(i)[..|trail|])
    ensures trail == Roles(i) ==> Plan(i)[..|trail|] == Plan(i)
    ensures Undisturbed(i, start, Roles(i)) ==> writes == 0
  {
    hide Roles, Run, StepFor;
    StepsForPrefix(i, Roles(i), |trail|);
    assert trail == Roles(i)[..|trail|];
    if Undisturbed(i, start, Roles(i)) {
      forall k | 0 <= k <= |trail| ensures Run(start, StepsFor(i, trail[..k])) == start {
        assert trail[..k] == Roles(i)[..k];
      }
    }
  }

  lemma RunnerRolesMore(runners: seq<string>, n: nat)
    requires n < |runners|
    ensures AllRunnerRoles(runners[..n + 1]) == AllRunnerRoles(runners[..n]) + RunnerRoles(runners[n])
  {
    assert runners[..n + 1][..n] == runners[..n];
  }

  /** What has been done of the first runners has been done of all of them. */
  lemma {:induction false} RunnerRolesPrefix(runners: seq<string>, n: nat, trail: seq<Role>, o: Outcome)
    requires n <= |runners| && o != Ok && Went([], trail, AllRunnerRoles(runners[..n]), o)
    ensures Went([], trail, AllRunnerRoles(runners), o)
    decreases |runners| - n
  {
    hide RunnerRoles, Went;
    if n == |runners| {
      assert runners[..n] == runners;
    } else {
      RunnerRolesMore(runners, n);
      WentPart([], trail, AllRunnerRoles(runners[..n]), RunnerRoles(runners[n]), o);
      RunnerRolesPrefix(runners, n + 1, trail, o);
    }
  }

  lemma ApiRolesGrouped(d: Deployment)
    ensures var first, services := ApiDeploymentRoles(d), ServiceRoles(None);
            && ApiRoles(d) == first + ([Hpa(None)] + (services + [Ing]))
            && ApiRoles(d) == first + [Hpa(None)] + (services + [Ing])
            && ApiRoles(d) == first + [Hpa(None)] + services + [Ing]
  {
    hide ApiDeploymentRoles, ServiceRoles;
  }
}
