/** What a run that stops early has and has not done. */
module Progress {
  import opened Options
  import opened Desired
  import opened Plans
  import opened Convergence

  predicate Differs(a: Store, b: Store, key: Key) {
    (key in a && key !in b) || (key !in a && key in b) || (key in a && key in b && a[key] != b[key])
  }

  /** The store after the first `cut` steps of a run. */
  function Part(i: Input, store: Store, cut: nat): Store
    requires cut <= |Plan(i)|
  {
    Run(store, Plan(i)[..cut])
  }

  lemma PrefixConsistent(steps: seq<Step>, cut: nat)
    requires Consistent(steps) && cut <= |steps|
    ensures Consistent(steps[..cut])
  {
    forall m, n | 0 <= m < cut && 0 <= n < cut && steps[..cut][m].key == steps[..cut][n].key
      ensures steps[..cut][m] == steps[..cut][n]
    {
      assert steps[..cut][m] == steps[m] && steps[..cut][n] == steps[n];
    }
  }

  /** A step that has been taken is settled. */
  lemma TakenIsSettled(i: Input, store: Store, cut: nat, n: nat)
    requires NamesOk(i) && n < cut <= |Plan(i)|
    ensures Settled(store, Part(i, store, cut), StepFor(i, Roles(i)[n]))
  {
    hide Roles, Settled, Consistent, Run, NamesOk, StepFor;
    PlanConsistent(i);
    PrefixConsistent(Plan(i), cut);
    RunSettles(store, Plan(i)[..cut]);
    assert Plan(i)[..cut][n] == StepFor(i, Roles(i)[n]);
  }

  /** An object that has changed is that of a step that has been taken. */
  lemma ChangedWasTaken(i: Input, store: Store, cut: nat, role: Role) returns (n: nat)
    requires NamesOk(i) && cut <= |Plan(i)| && role in Roles(i)
    requires Differs(store, Part(i, store, cut), KeyOf(i, role))
    ensures n < cut && Roles(i)[n] == role
  {
    hide Roles, Run, NamesOk, StepFor, KeyOf;
    var key, steps := KeyOf(i, role), Plan(i)[..cut];
    if !Touches(steps, key) {
      RunFrame(store, steps, key);
      assert false;
    }
    n :| 0 <= n < |steps| && steps[n].key == key;
    StepKey(i, Roles(i)[n]);
    RolesExact(i, Roles(i)[n]);
    RolesExact(i, role);
    KeysDistinct(i, Roles(i)[n], role);
  }

  lemma RunnersAreFirst(i: Input, n: nat, role: Role)
    requires n < |Roles(i)| && RunnerOf(Roles(i)[n]).None? && role in Roles(i) && RunnerOf(role).Some?
    ensures exists m: nat :: m < n && Roles(i)[m] == role
  {
    var first := AllRunnerRoles(i.b.runners);
    if n < |first| {
      assert first[n] in first;
      RunnerRolesOnly(i.b.runners, first[n]);
      assert false;
    }
    if role !in first {
      ApiRolesAre(i.d, role);
      assert false;
    }
    var m: nat :| m < |first| && first[m] == role;
    assert Roles(i)[m] == role;
  }

  /** The API server comes last: once one of its objects has changed, everything of the runners is settled,
      however the run goes on. */
  lemma RunnersComeFirst(i: Input, store: Store, cut: nat, api: Role, role: Role)
    requires NamesOk(i) && cut <= |Plan(i)| && api in Roles(i) && RunnerOf(api).None?
    requires Differs(store, Part(i, store, cut), KeyOf(i, api))
    requires role in Roles(i) && RunnerOf(role).Some?
    ensures Settled(store, Part(i, store, cut), StepFor(i, role))
  {
    hide Roles, Run, NamesOk, StepFor, KeyOf, Settled, Part, Differs;
    var n := ChangedWasTaken(i, store, cut, api);
    RunnersAreFirst(i, n, role);
    var m: nat :| m < n && Roles(i)[m] == role;
    TakenIsSettled(i, store, cut, m);
  }

  lemma ConfigIsFirst(i: Input, n: nat, debug: bool)
    requires n < |Roles(i)| && Roles(i)[n] == Dep(None, debug) && (debug ==> WantsDebug(i.d, None))
    ensures exists m: nat :: m < n && Roles(i)[m] == Cfg(debug)
  {
    hide WantsDebug;
    var first, api := AllRunnerRoles(i.b.runners), ApiRoles(i.d);
    if n < |first| {
      assert first[n] in first;
      RunnerRolesOnly(i.b.runners, first[n]);
      assert false;
    }
    var m := |first| + if debug then 2 else 0;
    assert Roles(i)[m] == api[m - |first|] == Cfg(debug);
    assert Roles(i)[n] == api[n - |first|];
  }

  /** Pods of the API server never start without the configuration of their proxy: once their Deployment has
      changed, the ConfigMap is as generated. */
  lemma ConfigComesFirst(i: Input, store: Store, cut: nat, debug: bool)
    requires NamesOk(i) && cut <= |Plan(i)| && (debug ==> WantsDebug(i.d, None))
    requires Differs(store, Part(i, store, cut), KeyOf(i, Dep(None, debug)))
    ensures KeyOf(i, Cfg(debug)) in Part(i, store, cut)
    ensures Part(i, store, cut)[KeyOf(i, Cfg(debug))] == ConfigObj(ProxyRoutes(i, debug))
  {
    hide Roles, Run, NamesOk, KeyOf, Part, Differs, WantsDebug, ProxyRoutes;
    RolesExact(i, Dep(None, debug));
    var n := ChangedWasTaken(i, store, cut, Dep(None, debug));
    ConfigIsFirst(i, n, debug);
    var m: nat :| m < n && Roles(i)[m] == Cfg(debug);
    TakenIsSettled(i, store, cut, m);
  }
}
