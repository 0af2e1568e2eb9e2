/** When the reconciles of two BentoDeployments in one namespace keep out of each other's way. */
module Isolation {
  import opened Options
  import opened Names
  import opened Desired
  import opened Plans
  import opened Convergence

  // ---------------------------------------------------------------- suffixes

  /** A suffix the operator appends to a name: none, `-p`, `-d`, or a runner's, which starts with `-r`,
      has no other `-r` in it and does not end in `-p` or `-d`. */
  predicate IsSuffix(s: string) {
    || s == "" || s == "-p" || s == "-d"
    || (&& |s| > 8 && s[0] == '-' && s[1] == 'r'
        && (forall p :: 1 <= p < |s| - 1 && s[p] == '-' ==> s[p + 1] != 'r')
        && (s[|s| - 2] == '-' ==> s[|s| - 1] != 'p' && s[|s| - 1] != 'd'))
  }

  /** A word of digits after one of the runner infixes. */
  lemma RunnerSuffix(w: string, h: string)
    requires w == "-runner-" || w == "-runner-p-" || w == "-runner-d-"
    requires h != [] && forall k :: 0 <= k < |h| ==> IsHexDigit(h[k])
    requires |h| == 1 ==> '0' <= h[0] <= '9'
    ensures IsSuffix(w + h)
  {
    var s := w + h;
    assert forall p :: |w| <= p < |s| ==> s[p] == h[p - |w|] && IsHexDigit(h[p - |w|]);
    assert s[|w|] == h[0];
  }

  lemma KubeSuffixShape(b: Bento, r: Option<string>, debug: bool)
    requires Known(b, r)
    ensures IsSuffix(KubeSuffix(b, r, debug))
  {
    if r.Some? {
      FirstIndexFinds(b.runners, r.value);
      var n := FirstIndex(b.runners, r.value).value;
      DecimalRoundTrip(n);
      RunnerSuffix(if debug then "-runner-d-" else "-runner-", Decimal(n));
    }
  }

  lemma ServiceSuffixShape(hash: Hash, b: Bento, r: Option<string>, v: Variant)
    requires Digests(hash)
    ensures IsSuffix(ServiceSuffix(hash, b, r, v))
  {
    if r.Some? {
      var h := hash(RunnerText(b, r.value));
      assert IsDigest(h);
      assert forall k :: 0 <= k < |h| ==> IsHexDigit(h[k]);
      RunnerSuffix("-" + Infix(v), h);
    }
  }

  /** No suffix ends in another, shorter one, other than the empty one. */
  lemma SuffixNotSplit(s: string, u: string, t: string)
    requires s == u + t && u != "" && IsSuffix(s) && IsSuffix(t)
    ensures t == ""
  {
    SecondPart(u, t);
  }

  lemma SecondPart(u: string, t: string)
    ensures |t| >= 2 ==> (u + t)[|u|] == t[0] && (u + t)[|u| + 1] == t[1]
  {}

  /** Names built from two different stems meet only if one stem is a name built from the other. */
  lemma StemsMeet(a: string, s: string, b: string, t: string)
    requires a + s == b + t && |a| < |b| && IsSuffix(s) && IsSuffix(t)
    ensures t == "" && b == a + s
  {
    hide IsSuffix;
    var u := b[|a|..];
    assert b == a + u by { assert (a + s)[..|a|] == a && (b + t)[..|a|] == b[..|a|]; }
    assert a + s == a + (u + t) by { assert (a + u) + t == a + (u + t); }
    CancelLeft(a, s, u + t);
    SuffixNotSplit(s, u, t);
    assert u + t == u;
  }

  lemma SameStemLength(a: string, s: string, b: string, t: string)
    requires a + s == b + t && |a| == |b|
    ensures a == b
  {
    assert (a + s)[..|a|] == a && (b + t)[..|b|] == b;
  }

  lemma StemCases(a: string, s: string, b: string, t: string)
    requires a + s == b + t && a != b && IsSuffix(s) && IsSuffix(t)
    ensures b == a + s || a == b + t
  {
    hide IsSuffix;
    if |a| == |b| {
      SameStemLength(a, s, b, t);
    } else if |a| < |b| {
      StemsMeet(a, s, b, t);
    } else {
      StemsMeet(b, t, a, s);
    }
  }

  /** `name` is one of the names of `i`'s Deployments or Services. */
  ghost predicate Claims(i: Input, name: string) {
    || (exists r, debug :: Known(i.b, r) && KubeName(i.d.name, i.b, r, debug) == name)
    || (exists r, v :: Known(i.b, r) && ServiceName(i.d.name, i.hash, i.b, r, v) == name)
  }

  lemma ClaimsKube(i: Input, r: Option<string>, debug: bool)
    requires Known(i.b, r)
    ensures Claims(i, KubeName(i.d.name, i.b, r, debug))
  {}

  lemma ClaimsService(i: Input, r: Option<string>, v: Variant)
    requires Known(i.b, r)
    ensures Claims(i, ServiceName(i.d.name, i.hash, i.b, r, v))
  {}

  lemma KubeNamesMeet(a: Input, r: Option<string>, debug: bool, b: Input, r': Option<string>, debug': bool)
    requires a.d.name != b.d.name && Known(a.b, r) && Known(b.b, r')
    requires KubeName(a.d.name, a.b, r, debug) == KubeName(b.d.name, b.b, r', debug')
    ensures Claims(a, b.d.name) || Claims(b, a.d.name)
  {
    hide KubeSuffix, Claims, IsSuffix, IsDigest, Known;
    KubeSuffixShape(a.b, r, debug);
    KubeSuffixShape(b.b, r', debug');
    ClaimsKube(a, r, debug);
    ClaimsKube(b, r', debug');
    StemCases(a.d.name, KubeSuffix(a.b, r, debug), b.d.name, KubeSuffix(b.b, r', debug'));
  }

  /** Two runners, one of each, whose Services take the hashed form and get the same hash. */
  ghost predicate SharesHashed(a: Input, b: Input) {
    exists r, r', v :: r in a.b.runners && r' in b.b.runners && SameHashed(a, r, b, r', v)
  }

  predicate SameHashed(a: Input, r: string, b: Input, r': string, v: Variant) {
    && TooLong(a.d.name, a.hash, a.b, Some(r), v) && TooLong(b.d.name, b.hash, b.b, Some(r'), v)
    && a.hash(OwnedText(a.d.name, a.b, r)) == b.hash(OwnedText(b.d.name, b.b, r'))
  }

  /** The three ways for two BentoDeployments to get in each other's way. */
  ghost predicate Clash(a: Input, b: Input) {
    Claims(a, b.d.name) || Claims(b, a.d.name) || SharesHashed(a, b)
  }

  lemma SharedIsNamed(a: Input, r: string, b: Input, r': string, v: Variant)
    requires SameHashed(a, r, b, r', v)
    ensures ServiceName(a.d.name, a.hash, a.b, Some(r), v) == ServiceName(b.d.name, b.hash, b.b, Some(r'), v)
  {
    hide TooLong, OwnedText;
  }

  lemma ClashBySharing(a: Input, r: string, b: Input, r': string, v: Variant)
    requires r in a.b.runners && r' in b.b.runners && SameHashed(a, r, b, r', v)
    ensures Clash(a, b)
  {
    hide SameHashed, Claims;
  }

  /** A name in the hashed form that is also one in the plain form is a bare name. */
  lemma HashedElsewhere(a: Input, r: string, v: Variant, b: Input, r': Option<string>, v': Variant)
    requires Digests(a.hash) && Digests(b.hash) && r in a.b.runners
    requires TooLong(a.d.name, a.hash, a.b, Some(r), v) && !TooLong(b.d.name, b.hash, b.b, r', v')
    requires ServiceName(a.d.name, a.hash, a.b, Some(r), v) == ServiceName(b.d.name, b.hash, b.b, r', v')
    ensures Claims(a, b.d.name)
  {
    hide ServiceSuffix, TooLong, OwnedText, IsDigest, Claims, Infix;
    var h := a.hash(OwnedText(a.d.name, a.b, r));
    assert IsDigest(h);
    HashedMeetsPlain(v, h, b.d.name, b.hash, b.b, r', v');
    ClaimsService(a, Some(r), v);
  }

  lemma ServiceNamesMeet(a: Input, r: Option<string>, v: Variant, b: Input, r': Option<string>, v': Variant)
    requires Digests(a.hash) && Digests(b.hash) && a.d.name != b.d.name
    requires Known(a.b, r) && Known(b.b, r')
    requires ServiceName(a.d.name, a.hash, a.b, r, v) == ServiceName(b.d.name, b.hash, b.b, r', v')
    ensures Clash(a, b)
  {
    hide ServiceSuffix, Claims, IsSuffix, TooLong, OwnedText, IsDigest, SharesHashed, Infix;
    var long, long' := TooLong(a.d.name, a.hash, a.b, r, v), TooLong(b.d.name, b.hash, b.b, r', v');
    ShortApi(a.d.name, a.hash, a.b, r, v);
    ShortApi(b.d.name, b.hash, b.b, r', v');
    if long && long' {
      var h, h' := a.hash(OwnedText(a.d.name, a.b, r.value)), b.hash(OwnedText(b.d.name, b.b, r'.value));
      assert IsDigest(h) && IsDigest(h');
      InfixInjective(v, h, v', h');
      ClashBySharing(a, r.value, b, r'.value, v);
    } else if long {
      HashedElsewhere(a, r.value, v, b, r', v');
    } else if long' {
      HashedElsewhere(b, r'.value, v', a, r, v);
    } else {
      PlainServicesMeet(a, r, v, b, r', v');
    }
  }

  lemma PlainServicesMeet(a: Input, r: Option<string>, v: Variant, b: Input, r': Option<string>, v': Variant)
    requires Digests(a.hash) && Digests(b.hash)
    requires a.d.name != b.d.name && Known(a.b, r) && Known(b.b, r')
    requires !TooLong(a.d.name, a.hash, a.b, r, v) && !TooLong(b.d.name, b.hash, b.b, r', v')
    requires ServiceName(a.d.name, a.hash, a.b, r, v) == ServiceName(b.d.name, b.hash, b.b, r', v')
    ensures Claims(a, b.d.name) || Claims(b, a.d.name)
  {
    hide ServiceSuffix, Claims, IsSuffix, TooLong, IsDigest, Known;
    ServiceSuffixShape(a.hash, a.b, r, v);
    ServiceSuffixShape(b.hash, b.b, r', v');
    ClaimsService(a, r, v);
    ClaimsService(b, r', v');
    StemCases(a.d.name, ServiceSuffix(a.hash, a.b, r, v), b.d.name, ServiceSuffix(b.hash, b.b, r', v'));
  }

  // ---------------------------------------------------------------- keys

  ghost predicate KeysMeet(a: Input, b: Input) {
    exists x, y :: Known(a.b, RunnerOf(x)) && Known(b.b, RunnerOf(y)) && KeyOf(a, x) == KeyOf(b, y)
  }

  lemma ConfigNamesMeet(a: Input, debug: bool, b: Input, debug': bool)
    requires ConfigName(a, debug) == ConfigName(b, debug')
    ensures KubeName(a.d.name, a.b, None, debug) == KubeName(b.d.name, b.b, None, debug')
  {
    hide KubeName;
    var tail := "-envoy-config";
    SameStemLength(KubeName(a.d.name, a.b, None, debug), tail, KubeName(b.d.name, b.b, None, debug'), tail);
  }

  lemma RolesMeet(a: Input, x: Role, b: Input, y: Role)
    requires Digests(a.hash) && Digests(b.hash) && a.d.name != b.d.name
    requires Known(a.b, RunnerOf(x)) && Known(b.b, RunnerOf(y)) && KeyOf(a, x) == KeyOf(b, y)
    ensures Clash(a, b)
  {
    hide KubeName, ServiceName, Claims, SharesHashed, IsDigest, Known, ConfigName;
    match x
    case Dep(r, debug) => KubeNamesMeet(a, r, debug, b, y.runner, y.debug);
    case Hpa(r) => KubeNamesMeet(a, r, false, b, y.runner, false);
    case Svc(r, v) => ServiceNamesMeet(a, r, v, b, y.runner, y.v);
    case Ing => KubeNamesMeet(a, None, false, b, None, false);
    case Cfg(debug) =>
      ConfigNamesMeet(a, debug, b, y.debug);
      KubeNamesMeet(a, None, debug, b, None, y.debug);
  }

  /** The base names of the two are keys of both kinds, so a claimed name is a shared key. */
  lemma ClaimedMeets(a: Input, b: Input)
    requires a.d.namespace == b.d.namespace && Claims(a, b.d.name)
    ensures KeysMeet(a, b)
  {
    hide KeyOf, Known, KubeName, ServiceName;
    BaseKeys(b);
    if r, debug :| Known(a.b, r) && KubeName(a.d.name, a.b, r, debug) == b.d.name {
      KeyNames(a, r, debug, Generic);
      MeetAt(a, Dep(r, debug), b, Dep(None, false));
    } else {
      var r, v :| Known(a.b, r) && ServiceName(a.d.name, a.hash, a.b, r, v) == b.d.name;
      KeyNames(a, r, false, v);
      MeetAt(a, Svc(r, v), b, Svc(None, Generic));
    }
  }

  lemma KeyNames(i: Input, r: Option<string>, debug: bool, v: Variant)
    ensures KeyOf(i, Dep(r, debug)) == Key(DeploymentKind, i.d.namespace, KubeName(i.d.name, i.b, r, debug))
    ensures KeyOf(i, Svc(r, v)) == Key(ServiceKind, i.d.namespace, ServiceName(i.d.name, i.hash, i.b, r, v))
  {
    hide KubeName, ServiceName;
  }

  lemma BaseKeys(i: Input)
    ensures Known(i.b, None)
    ensures KeyOf(i, Dep(None, false)) == Key(DeploymentKind, i.d.namespace, i.d.name)
    ensures KeyOf(i, Svc(None, Generic)) == Key(ServiceKind, i.d.namespace, i.d.name)
  {
    assert i.d.name + "" == i.d.name;
  }

  lemma MeetAt(a: Input, x: Role, b: Input, y: Role)
    requires Known(a.b, RunnerOf(x)) && Known(b.b, RunnerOf(y)) && KeyOf(a, x) == KeyOf(b, y)
    ensures KeysMeet(a, b)
  {
    hide KeyOf, Known;
  }

  lemma KeysMeetSymmetric(a: Input, b: Input)
    requires KeysMeet(a, b)
    ensures KeysMeet(b, a)
  {
    hide KeyOf, Known, RunnerOf;
    var x, y :| Known(a.b, RunnerOf(x)) && Known(b.b, RunnerOf(y)) && KeyOf(a, x) == KeyOf(b, y);
    assert Known(b.b, RunnerOf(y)) && Known(a.b, RunnerOf(x)) && KeyOf(b, y) == KeyOf(a, x);
  }

  lemma SharedMeets(a: Input, b: Input)
    requires a.d.namespace == b.d.namespace && SharesHashed(a, b)
    ensures KeysMeet(a, b)
  {
    hide KeyOf, ServiceName, SameHashed;
    var r, r', v :| r in a.b.runners && r' in b.b.runners && SameHashed(a, r, b, r', v);
    SharedIsNamed(a, r, b, r', v);
    KeyNames(a, Some(r), false, v);
    KeyNames(b, Some(r'), false, v);
    MeetAt(a, Svc(Some(r), v), b, Svc(Some(r'), v));
  }

  /** Two differently named BentoDeployments of one namespace share an object exactly when the name of one
      is a name the operator makes from the other's, hashed or not, or a runner Service of each takes the
      hashed form with the same hash. */
  lemma KeysMeetExact(a: Input, b: Input)
    requires a.d.namespace == b.d.namespace && a.d.name != b.d.name
    requires Digests(a.hash) && Digests(b.hash)
    ensures KeysMeet(a, b) <==> Claims(a, b.d.name) || Claims(b, a.d.name) || SharesHashed(a, b)
  {
    hide Claims, SharesHashed, KeyOf, Known, RunnerOf, Digests;
    if KeysMeet(a, b) {
      var x, y :| Known(a.b, RunnerOf(x)) && Known(b.b, RunnerOf(y)) && KeyOf(a, x) == KeyOf(b, y);
      RolesMeet(a, x, b, y);
    }
    if Claims(a, b.d.name) { ClaimedMeets(a, b); }
    if Claims(b, a.d.name) {
      ClaimedMeets(b, a);
      KeysMeetSymmetric(b, a);
    }
    if SharesHashed(a, b) { SharedMeets(a, b); }
  }

  // ---------------------------------------------------------------- commuting runs

  predicate Apart(a: seq<Step>, b: seq<Step>) {
    forall m, n :: 0 <= m < |a| && 0 <= n < |b| ==> a[m].key != b[n].key
  }

  lemma StepsCommute(store: Store, x: Step, y: Step)
    requires x.key != y.key
    ensures Effect(Effect(store, x), y) == Effect(Effect(store, y), x)
  {
    assert Effect(Effect(store, x), y).Keys == Effect(Effect(store, y), x).Keys;
  }

  lemma {:induction false} StepPastRun(store: Store, steps: seq<Step>, y: Step)
    requires forall m :: 0 <= m < |steps| ==> steps[m].key != y.key
    ensures Effect(Run(store, steps), y) == Run(Effect(store, y), steps)
    decreases |steps|
  {
    hide Effect;
    if steps != [] {
      StepPastRun(store, steps[..|steps| - 1], y);
      StepsCommute(Run(store, steps[..|steps| - 1]), steps[|steps| - 1], y);
    }
  }

  lemma {:induction false} RunsCommute(store: Store, a: seq<Step>, b: seq<Step>)
    requires Apart(a, b)
    ensures Run(Run(store, a), b) == Run(Run(store, b), a)
    decreases |b|
  {
    hide Effect;
    if b != [] {
      var init, last := b[..|b| - 1], b[|b| - 1];
      RunsCommute(store, a, init);
      StepPastRun(Run(store, init), a, last);
    }
  }

  /** Reconciles of two BentoDeployments that share no object commute, complete or cut short. */
  lemma ReconcilesCommute(store: Store, a: Attempt, b: Attempt)
    requires
      || a.i.d.namespace != b.i.d.namespace
      || (&& a.i.d.name != b.i.d.name && Digests(a.i.hash) && Digests(b.i.hash)
          && !Claims(a.i, b.i.d.name) && !Claims(b.i, a.i.d.name) && !SharesHashed(a.i, b.i))
    ensures Run(Run(store, Prefix(a)), Prefix(b)) == Run(Run(store, Prefix(b)), Prefix(a))
  {
    hide Roles, Claims, SharesHashed, Digests, Run, KeyOf, StepFor, IsDigest;
    forall m, n | 0 <= m < |Prefix(a)| && 0 <= n < |Prefix(b)| ensures Prefix(a)[m].key != Prefix(b)[n].key {
      var x, y := Roles(a.i)[m], Roles(b.i)[n];
      StepKey(a.i, x);
      StepKey(b.i, y);
      RolesExact(a.i, x);
      RolesExact(b.i, y);
      KeyNamespace(a.i, x);
      KeyNamespace(b.i, y);
      if a.i.d.namespace == b.i.d.namespace && KeyOf(a.i, x) == KeyOf(b.i, y) { RolesMeet(a.i, x, b.i, y); }
    }
    RunsCommute(store, Prefix(a), Prefix(b));
  }

  lemma KeyNamespace(i: Input, role: Role)
    ensures KeyOf(i, role).namespace == i.d.namespace
  {
    hide KubeName, ServiceName, ConfigName;
  }

  // ---------------------------------------------------------------- the condition is needed

  lemma DebugStep(i: Input)
    requires !ContainsStealing(i.d)
    ensures StepFor(i, Dep(None, true)) == Remove(KeyOf(i, Dep(None, true)))
    ensures KubeName(i.d.name, i.b, None, true) == i.d.name + "-d"
  {
    hide MakeDeployment, KeyOf, ContainsStealing;
  }

  /** A BentoDeployment `x` without debugging deletes the main Deployment of one called `x-d`. */
  lemma DebugNameIsDeleted(a: Input, b: Input, store: Store)
    requires NamesOk(a) && !ContainsStealing(a.d)
    requires b.d.namespace == a.d.namespace && b.d.name == a.d.name + "-d"
    ensures KeyOf(b, Dep(None, false)) !in Run(Run(store, Plan(b)), Plan(a))
  {
    hide Roles, Run, Plan, NamesOk, KeyOf, KubeName, IsDigest, StepFor, ContainsStealing, Known;
    var before := Run(store, Plan(b));
    Converges(a, before);
    RolesExact(a, Dep(None, true));
    BaseKeys(a);
    BaseKeys(b);
    KeyNames(a, None, true, Generic);
    DebugStep(a);
    assert Settled(before, Run(before, Plan(a)), StepFor(a, Dep(None, true)));
  }

  /** Two BentoDeployments with long names can share a runner Service: the text that is hashed does not
      say where the name ends and the repository begins. */
  lemma HashedNamesShared(
      x: string, y: string, z: string, version: string, runners: seq<string>, runner: string, hash: Hash, v: Variant)
    requires Digests(hash) && |x| > 23
    ensures ServiceName(x, hash, Bento(y + "-" + z, version, runners), Some(runner), v)
         == ServiceName(x + "-" + y, hash, Bento(z, version, runners), Some(runner), v)
  {
    var a, b := Bento(y + "-" + z, version, runners), Bento(z, version, runners);
    TooLongExact(x, hash, a, runner, v);
    TooLongExact(x + "-" + y, hash, b, runner, v);
    hide IsDigest, ServiceSuffix, TooLong, Infix, OwnedText, Digests;
    SameOwnedText(x, y, z, version, runners, runner);
  }

  lemma SameOwnedText(x: string, y: string, z: string, version: string, runners: seq<string>, runner: string)
    ensures OwnedText(x, Bento(y + "-" + z, version, runners), runner)
         == OwnedText(x + "-" + y, Bento(z, version, runners), runner)
  {
    var tail := ":" + version + "-" + runner;
    assert RunnerText(Bento(y + "-" + z, version, runners), runner) == y + "-" + (z + tail);
    assert RunnerText(Bento(z, version, runners), runner) == z + tail;
    Reassociate(x + "-", y + "-", z + tail);
  }

  lemma Reassociate(a: string, b: string, c: string)
    ensures a + (b + c) == a + b + c
  {}
}
